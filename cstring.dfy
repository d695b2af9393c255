/**
 * NUL-terminated strings and the C library's `strncmp`, as used by the
 * provider option names and by the certification-key audit.
 *
 * A C string is modelled by the characters before its terminator, so a
 * `string` stands for a C string exactly when it contains no NUL character.
 */
module CString {

  /** The string can be the contents of a NUL-terminated C string. */
  predicate NoNul(s: string) {
    '\0' !in s
  }

  /** The character at index `i` of the NUL-terminated string `s` (the terminator past the end). */
  function CharAt(s: string, i: nat): (c: char)
    ensures i < |s| ==> c == s[i]
    ensures |s| <= i ==> c == '\0'
  {
    if i < |s| then s[i] else '\0'
  }

  /** No terminator comes before index `i` of `s`. */
  predicate BeforeTerminator(s: string, i: nat) {
    forall j :: 0 <= j < i ==> CharAt(s, j) != '\0'
  }

  /**
   * The meaning of `strncmp(a, b, n) == 0` in the C standard: at each of the
   * first `n` indices that `a` has not yet terminated before, the two
   * strings hold the same character.
   */
  predicate AgreeBefore(a: string, b: string, n: nat) {
    forall i :: 0 <= i < n && BeforeTerminator(a, i) ==> CharAt(a, i) == CharAt(b, i)
  }

  /** Past a common first character that is not the terminator, agreement moves one index on. */
  lemma AgreeBeforeTail(a: string, b: string, n: nat)
    requires n > 0 && CharAt(a, 0) == CharAt(b, 0) != '\0'
    ensures AgreeBefore(a, b, n) <==> AgreeBefore(a[1..], b[1..], n - 1)
  {
    forall i: nat | i + 1 < n
      ensures BeforeTerminator(a, i + 1) <==> BeforeTerminator(a[1..], i)
      ensures CharAt(a, i + 1) == CharAt(a[1..], i) && CharAt(b, i + 1) == CharAt(b[1..], i)
    {
      if BeforeTerminator(a[1..], i) {
        forall j | 0 <= j < i + 1 ensures CharAt(a, j) != '\0' {
          if j > 0 {
            assert CharAt(a, j) == CharAt(a[1..], j - 1);
          }
        }
      }
      if BeforeTerminator(a, i + 1) {
        forall j | 0 <= j < i ensures CharAt(a[1..], j) != '\0' {
          assert CharAt(a, j + 1) == CharAt(a[1..], j);
        }
      }
    }
    if AgreeBefore(a[1..], b[1..], n - 1) {
      forall i | 0 <= i < n && BeforeTerminator(a, i) ensures CharAt(a, i) == CharAt(b, i) {
        if i > 0 {
          assert CharAt(a, i) == CharAt(a[1..], i - 1);
        }
      }
    }
    if AgreeBefore(a, b, n) {
      forall i | 0 <= i < n - 1 && BeforeTerminator(a[1..], i)
        ensures CharAt(a[1..], i) == CharAt(b[1..], i)
      {
        assert BeforeTerminator(a, i + 1);
      }
    }
  }

  /**
   * `strncmp(a, b, n) == 0`: the strings agree on their first `n`
   * characters, where the comparison stops early at a common terminator.
   */
  predicate StrNCmpZero(a: string, b: string, n: nat)
    ensures StrNCmpZero(a, b, n) <==> AgreeBefore(a, b, n)
    decreases n
  {
    n == 0 ||
    (CharAt(a, 0) == CharAt(b, 0) &&
     (CharAt(a, 0) == '\0' ||
      (AgreeBeforeTail(a, b, n); StrNCmpZero(a[1..], b[1..], n - 1))))
  }

  /** The first `n` characters of `s`, or all of `s` when it is shorter. */
  function Take(s: string, n: nat): (r: string)
    ensures |r| == if n <= |s| then n else |s|
    ensures r <= s
  {
    if n <= |s| then s[..n] else s
  }

  /** `p` is a prefix of `s`; the empty string is a prefix of every string. */
  predicate IsPrefix(p: string, s: string) {
    |p| <= |s| && s[..|p|] == p
  }

  /** `strncmp` over C strings compares the first `n` characters of each, as strings. */
  lemma {:induction false} StrNCmpZeroIsTakeEqual(a: string, b: string, n: nat)
    requires NoNul(a) && NoNul(b)
    ensures StrNCmpZero(a, b, n) <==> Take(a, n) == Take(b, n)
    decreases n
  {
    if n == 0 {
    } else if |a| == 0 || |b| == 0 {
      TakeEqualAtEnd(a, b, n);
    } else {
      assert a[0] in a && b[0] in b;
      assert NoNul(a[1..]) by {
        forall c | c in a[1..] ensures c in a { }
      }
      assert NoNul(b[1..]) by {
        forall c | c in b[1..] ensures c in b { }
      }
      StrNCmpZeroIsTakeEqual(a[1..], b[1..], n - 1);
      TakeEqualStep(a, b, n);
    }
  }

  /** The case of `StrNCmpZeroIsTakeEqual` where one string is empty. */
  lemma TakeEqualAtEnd(a: string, b: string, n: nat)
    requires NoNul(a) && NoNul(b) && n > 0 && (|a| == 0 || |b| == 0)
    ensures StrNCmpZero(a, b, n) <==> Take(a, n) == Take(b, n)
  {
    if |a| != 0 {
      assert a[0] in a;
      assert Take(a, n)[0] == a[0];
    }
    if |b| != 0 {
      assert b[0] in b;
      assert Take(b, n)[0] == b[0];
    }
  }

  /** The inductive step of `StrNCmpZeroIsTakeEqual`: a common first character, then the rest. */
  lemma TakeEqualStep(a: string, b: string, n: nat)
    requires NoNul(a) && NoNul(b) && n > 0 && |a| > 0 && |b| > 0
    requires StrNCmpZero(a[1..], b[1..], n - 1) <==> Take(a[1..], n - 1) == Take(b[1..], n - 1)
    ensures StrNCmpZero(a, b, n) <==> Take(a, n) == Take(b, n)
  {
    assert a[0] in a;
    assert StrNCmpZero(a, b, n) <==> a[0] == b[0] && StrNCmpZero(a[1..], b[1..], n - 1);
    TakeCons(a, n);
    TakeCons(b, n);
    ConsEqual(a[0], Take(a[1..], n - 1), b[0], Take(b[1..], n - 1));
  }

  lemma TakeCons(s: string, n: nat)
    requires n > 0 && |s| > 0
    ensures Take(s, n) == [s[0]] + Take(s[1..], n - 1)
  {
  }

  lemma ConsEqual(x: char, xs: string, y: char, ys: string)
    ensures [x] + xs == [y] + ys <==> x == y && xs == ys
  {
    if [x] + xs == [y] + ys {
      assert ([x] + xs)[0] == x && ([y] + ys)[0] == y;
      assert ([x] + xs)[1..] == xs && ([y] + ys)[1..] == ys;
    }
  }

  /**
   * `strncmp(a, b, strlen(b)) == 0` holds exactly when `b` is a prefix of
   * `a`: with `a` a literal, every beginning of it (the empty string
   * included) passes; with `b` a literal, exactly the strings starting with it.
   */
  lemma StrNCmpZeroWhenPrefixOf(a: string, b: string)
    requires NoNul(a) && NoNul(b)
    ensures StrNCmpZero(a, b, |b|) <==> IsPrefix(b, a)
  {
    StrNCmpZeroIsTakeEqual(a, b, |b|);
  }
}
