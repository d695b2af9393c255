/**
 * Provider option names (sql/wsrep_server_state.cc): the plugin option
 * name built for each provider system variable, its translation back into
 * the provider's own option name, and the `name=value` strings accumulated
 * for the provider while the configuration is parsed.
 */
module ProviderOptions {
  import opened Common
  import opened CString

  const ProviderOptionsPrefix: string := "wsrep-provider-"
  const ProviderOptionsPrefixLength: nat := 15

  /** The separately declared prefix length is the length of the prefix. */
  lemma PrefixLengthMatches()
    ensures |ProviderOptionsPrefix| == ProviderOptionsPrefixLength
    ensures NoNul(ProviderOptionsPrefix) && '_' !in ProviderOptionsPrefix
  {
  }

  /** `std::string::find(c)`: the first index holding `c`, or `|s|` when there is none. */
  function Find(s: string, c: char): (p: nat)
    ensures p <= |s|
    ensures p < |s| <==> c in s
    ensures p < |s| ==> s[p] == c
    ensures forall i :: 0 <= i < p ==> s[i] != c
    decreases |s|
  {
    if s == [] then 0 else if s[0] == c then 0 else 1 + Find(s[1..], c)
  }

  /** `s` with every `from` replaced by `to`. */
  function Replace(s: string, from: char, to: char): (r: string)
    ensures |r| == |s|
    ensures forall i :: 0 <= i < |s| ==> r[i] == if s[i] == from then to else s[i]
    decreases |s|
  {
    if s == [] then [] else [if s[0] == from then to else s[0]] + Replace(s[1..], from, to)
  }

  /** What follows the prefix in an option name. */
  function Rest(name: string): (rest: string)
    requires IsPrefix(ProviderOptionsPrefix, name)
    ensures |rest| == |name| - ProviderOptionsPrefixLength
  {
    name[ProviderOptionsPrefixLength..]
  }

  /**
   * `r` is `rest` with its first `-` made a `.`, every later `-` made a `_`,
   * and every other character as it was.
   */
  ghost predicate MangledFrom(rest: string, r: string)
    requires '-' in rest
  {
    var pos := Find(rest, '-');
    && |r| == |rest|
    && r[pos] == '.'
    && (forall i :: 0 <= i < pos ==> r[i] == rest[i])
    && (forall i :: pos < i < |r| ==> r[i] == if rest[i] == '-' then '_' else rest[i])
  }

  /** The rewriting determines its result. */
  lemma MangledUnique(rest: string, r1: string, r2: string)
    requires '-' in rest && MangledFrom(rest, r1) && MangledFrom(rest, r2)
    ensures r1 == r2
  {
    var pos := Find(rest, '-');
    forall i | 0 <= i < |r1| ensures r1[i] == r2[i] {
      if i < pos { } else if i == pos { } else { }
    }
  }

  /**
   * Reference definition of `option_name_to_provider_name`: without the
   * prefix, or without a `-` after it, the empty string; otherwise what
   * follows the prefix, its first `-` made a `.` and every later `-` a `_`,
   * so that no `-` is left and the length is that of the name less the prefix.
   */
  function ProviderName(name: string): (r: string)
    ensures !IsPrefix(ProviderOptionsPrefix, name) ==> r == ""
    ensures IsPrefix(ProviderOptionsPrefix, name) && '-' !in Rest(name) ==> r == ""
    ensures IsPrefix(ProviderOptionsPrefix, name) && '-' in Rest(name) ==>
      MangledFrom(Rest(name), r) && |r| == |name| - ProviderOptionsPrefixLength && '-' !in r
  {
    if !IsPrefix(ProviderOptionsPrefix, name) then ""
    else
      var rest := Rest(name);
      var pos := Find(rest, '-');
      if pos == |rest| then ""
      else
        MangleAt(rest, pos);
        rest[..pos] + "." + Replace(rest[pos + 1..], '-', '_')
  }

  /** Splitting at the first `-` and rewriting the later ones obeys the rule. */
  lemma MangleAt(rest: string, pos: nat)
    requires pos == Find(rest, '-') < |rest|
    ensures var r := rest[..pos] + "." + Replace(rest[pos + 1..], '-', '_');
      MangledFrom(rest, r) && '-' !in r
  {
    var r := rest[..pos] + "." + Replace(rest[pos + 1..], '-', '_');
    MangleHead(rest, pos, r);
    MangleTail(rest, pos, r);
    assert r[pos] == '.';
    forall i | 0 <= i < |r| ensures r[i] != '-' {
      if i < pos {
        assert rest[i] != '-';
      }
    }
  }

  /** Before the split point, the rewritten remainder keeps the remainder's characters. */
  lemma MangleHead(rest: string, pos: nat, r: string)
    requires pos < |rest| && r == rest[..pos] + "." + Replace(rest[pos + 1..], '-', '_')
    ensures |r| == |rest|
    ensures forall i :: 0 <= i < pos ==> r[i] == rest[i]
  {
    var head := rest[..pos] + ".";
    assert r == head + Replace(rest[pos + 1..], '-', '_');
    forall i | 0 <= i < pos ensures r[i] == rest[i] {
      assert r[i] == head[i];
    }
  }

  /** After the split point, every `-` of the remainder has become a `_`. */
  lemma MangleTail(rest: string, pos: nat, r: string)
    requires pos < |rest| && r == rest[..pos] + "." + Replace(rest[pos + 1..], '-', '_')
    ensures |r| == |rest|
    ensures forall i :: pos < i < |r| ==> r[i] == if rest[i] == '-' then '_' else rest[i]
  {
    var head := rest[..pos] + ".";
    var tail := Replace(rest[pos + 1..], '-', '_');
    assert |head| == pos + 1;
    forall i | pos < i < |r| ensures r[i] == if rest[i] == '-' then '_' else rest[i] {
      AppendIndex(head, tail, i);
      assert rest[pos + 1..][i - pos - 1] == rest[i];
    }
  }

  lemma AppendIndex(a: string, b: string, i: nat)
    requires |a| <= i < |a| + |b|
    ensures (a + b)[i] == b[i - |a|]
  {
  }

  /** Any rewriting of a name's remainder by the rule above is its provider name. */
  lemma ProviderNameIsMangled(name: string, r: string)
    requires IsPrefix(ProviderOptionsPrefix, name) && '-' in Rest(name) && MangledFrom(Rest(name), r)
    ensures r == ProviderName(name)
  {
    MangledUnique(Rest(name), r, ProviderName(name));
  }

  /**
   * `option_name_to_provider_name(name)`, as the source computes it: a
   * `strncmp` against the prefix, a search for the first `-`, and the
   * in-place rewriting of `RewriteDashes`. (A name the source asserts
   * never to see yields the empty string, as in a release build.)
   */
  method OptionNameToProviderName(name: string) returns (r: string)
    requires NoNul(name)
    ensures r == ProviderName(name)
  {
    if !StrNCmpZero(name, ProviderOptionsPrefix, ProviderOptionsPrefixLength) {
      assert !IsPrefix(ProviderOptionsPrefix, name) by {
        PrefixLengthMatches();
        StrNCmpZeroWhenPrefixOf(name, ProviderOptionsPrefix);
      }
      return "";
    }
    assert IsPrefix(ProviderOptionsPrefix, name) by {
      PrefixLengthMatches();
      StrNCmpZeroWhenPrefixOf(name, ProviderOptionsPrefix);
    }
    var option := name[ProviderOptionsPrefixLength..];
    var pos := Find(option, '-');
    if pos == |option| {
      return "";
    }
    r := RewriteDashes(option, pos);
    ProviderNameIsMangled(name, r);
  }

  /**
   * The loop of `option_name_to_provider_name`: the `-` at `pos` (the first
   * one) becomes `.`, and every `-` after it becomes `_`, in place.
   */
  method RewriteDashes(rest: string, pos: nat) returns (option: string)
    requires pos < |rest| && pos == Find(rest, '-')
    ensures MangledFrom(rest, option)
  {
    option := rest;
    option := option[pos := '.'];
    var i := pos + 1;
    while i < |option|
      invariant pos < i <= |option| == |rest|
      invariant option[pos] == '.'
      invariant forall j :: 0 <= j < pos ==> option[j] == rest[j]
      invariant forall j :: pos < j < i ==> option[j] == if rest[j] == '-' then '_' else rest[j]
      invariant forall j :: i <= j < |option| ==> option[j] == rest[j]
    {
      if option[i] == '-' {
        option := option[i := '_'];
      }
      i := i + 1;
    }
  }

  /**
   * `make_provider_option_string(name, value)`: the provider option
   * `name=value`. The provider can split it back: for a well-formed option
   * name (which has no `=`), the key before the first `=` is the provider's
   * option name and the rest is the value, whatever it holds.
   */
  function ProviderOptionString(name: string, value: string): (r: string)
    ensures '=' !in name ==>
      var eq := Find(r, '=');
      eq < |r| && r[..eq] == ProviderName(name) && r[eq + 1..] == value
  {
    var key := ProviderName(name);
    if '=' in name then key + "=" + value
    else
      ProviderNameHasNoEq(name);
      KeyValueSplits(key, value);
      key + "=" + value
  }

  /** The provider name is made of the name's own characters, `.` and `_`, so it has no `=` unless the name has. */
  lemma ProviderNameHasNoEq(name: string)
    requires '=' !in name
    ensures '=' !in ProviderName(name)
  {
    var key := ProviderName(name);
    if IsPrefix(ProviderOptionsPrefix, name) && '-' in Rest(name) {
      var rest := Rest(name);
      forall i | 0 <= i < |key| ensures key[i] != '=' {
        assert rest[i] in name;
      }
    }
  }

  /** A key without `=`, joined to a value by `=`, splits back at its first `=`. */
  lemma KeyValueSplits(key: string, value: string)
    requires '=' !in key
    ensures var s := key + "=" + value;
      var eq := Find(s, '=');
      eq == |key| && s[..eq] == key && s[eq + 1..] == value
  {
    var s := key + "=" + value;
    assert |key| < |s| && s[|key|] == '=';
    assert forall i :: 0 <= i < |key| ==> s[i] == key[i];
    assert s[..|key|] == key;
    assert s[|key| + 1..] == value;
  }

  /** A configuration file option, `my_option`: only its name is modelled; `None` is the terminator. */
  datatype MyOption = MyOption(name: Option<string>)

  /** A provider system variable, `st_mysql_sys_var`: only its name is modelled. */
  datatype SysVar = SysVar(name: string)

  /** The option name `my_option_init` gives to the variable `varName`. */
  function OptionNameFor(varName: string): (name: string)
    ensures |name| == ProviderOptionsPrefixLength + |varName|
    ensures IsPrefix(ProviderOptionsPrefix, name) && '_' !in name
  {
    PrefixLengthMatches();
    ProviderOptionsPrefix + Replace(varName, '_', '-')
  }

  /**
   * The naming part of `my_option_init`: the prefix and the variable name,
   * with every `_` of the whole string rewritten to `-` in place.
   */
  method MyOptionName(varName: string) returns (name: string)
    ensures name == OptionNameFor(varName)
    ensures |name| == ProviderOptionsPrefixLength + |varName| && '_' !in name
    ensures IsPrefix(ProviderOptionsPrefix, name)
  {
    PrefixLengthMatches();
    var optionName := ProviderOptionsPrefix + varName;
    ghost var original := optionName;
    var i := 0;
    while i < |optionName|
      invariant i <= |optionName| == |original|
      invariant forall j :: 0 <= j < i ==> optionName[j] == if original[j] == '_' then '-' else original[j]
      invariant forall j :: i <= j < |optionName| ==> optionName[j] == original[j]
    {
      if optionName[i] == '_' {
        optionName := optionName[i := '-'];
      }
      i := i + 1;
    }
    name := optionName;
    assert name[..ProviderOptionsPrefixLength] == ProviderOptionsPrefix by {
      forall j | 0 <= j < ProviderOptionsPrefixLength ensures name[j] == ProviderOptionsPrefix[j] {
        assert original[j] == ProviderOptionsPrefix[j];
      }
    }
    assert name[ProviderOptionsPrefixLength..] == Replace(varName, '_', '-');
  }

  /**
   * A variable name whose parts are joined by `_` (and which has no `-`)
   * comes back from the provider with its first `_` turned into the group
   * separator `.`: `repl_max_ws_size` becomes `repl.max_ws_size`.
   */
  lemma ProviderNameOfOptionName(varName: string)
    requires '-' !in varName && '_' in varName
    ensures ProviderName(OptionNameFor(varName)) == varName[Find(varName, '_') := '.']
  {
    var name := OptionNameFor(varName);
    OptionNameRest(varName);
    FindAfterReplace(varName);
    MangledOfVarName(varName);
    ProviderNameIsMangled(name, varName[Find(varName, '_') := '.']);
  }

  /** An option name carries the prefix, followed by the rewritten variable name. */
  lemma OptionNameRest(varName: string)
    ensures IsPrefix(ProviderOptionsPrefix, OptionNameFor(varName))
    ensures Rest(OptionNameFor(varName)) == Replace(varName, '_', '-')
  {
    PrefixLengthMatches();
    var name := OptionNameFor(varName);
    assert name[..ProviderOptionsPrefixLength] == ProviderOptionsPrefix;
  }

  lemma FindAfterReplace(varName: string)
    requires '-' !in varName && '_' in varName
    ensures Find(Replace(varName, '_', '-'), '-') == Find(varName, '_')
  {
    var rest := Replace(varName, '_', '-');
    var u := Find(varName, '_');
    assert rest[u] == '-';
    forall i | 0 <= i < u ensures rest[i] != '-' {
      assert varName[i] in varName;
    }
  }

  lemma MangledOfVarName(varName: string)
    requires '-' !in varName && '_' in varName
    requires Find(Replace(varName, '_', '-'), '-') == Find(varName, '_')
    ensures MangledFrom(Replace(varName, '_', '-'), varName[Find(varName, '_') := '.'])
  {
    var rest := Replace(varName, '_', '-');
    var u := Find(varName, '_');
    var r := varName[u := '.'];
    assert forall i :: 0 <= i < |varName| ==> varName[i] != '-' by {
      forall i | 0 <= i < |varName| ensures varName[i] != '-' {
        assert varName[i] in varName;
      }
    }
    assert |r| == |rest| && r[u] == '.';
    forall i | 0 <= i < u ensures r[i] == rest[i] {
      assert r[i] == varName[i] && varName[i] != '_';
    }
    forall i | u < i < |r| ensures r[i] == if rest[i] == '-' then '_' else rest[i] {
      assert r[i] == varName[i] && varName[i] != '-';
    }
  }

  /** An option name of the form prefix, group, `-`, rest. */
  lemma ProviderNameOfGroup(group: string, tail: string)
    requires '-' !in group
    ensures ProviderName(ProviderOptionsPrefix + group + "-" + tail) == group + "." + Replace(tail, '-', '_')
  {
    PrefixLengthMatches();
    var name := ProviderOptionsPrefix + group + "-" + tail;
    assert name[..ProviderOptionsPrefixLength] == ProviderOptionsPrefix;
    var rest := Rest(name);
    assert rest == group + "-" + tail;
    assert rest[|group|] == '-';
    assert forall i :: 0 <= i < |group| ==> rest[i] == group[i];
    assert Find(rest, '-') == |group|;
    assert rest[..|group|] == group && rest[|group| + 1..] == tail;
  }

  /** Replacing characters distributes over concatenation. */
  lemma {:induction false} ReplaceAppend(a: string, b: string, from: char, to: char)
    ensures Replace(a + b, from, to) == Replace(a, from, to) + Replace(b, from, to)
  {
    var ab := a + b;
    var l := Replace(ab, from, to);
    var ra := Replace(a, from, to);
    var rb := Replace(b, from, to);
    var r := ra + rb;
    assert |l| == |r|;
    forall i | 0 <= i < |l| ensures l[i] == r[i] {
      if i < |a| {
        assert ab[i] == a[i] && r[i] == ra[i];
      } else {
        assert ab[i] == b[i - |a|] && r[i] == rb[i - |a|];
      }
    }
  }

  /** Replacing a character that does not occur changes nothing. */
  lemma ReplaceAbsent(s: string, from: char, to: char)
    requires from !in s
    ensures Replace(s, from, to) == s
  {
  }

  /** The worked example in the source's comment. */
  lemma ProviderNameExample()
    ensures ProviderName("wsrep-provider-repl-max-ws-size") == "repl.max_ws_size"
  {
    assert "repl" + "." + ("max" + "_" + "ws" + "_" + "size") == "repl.max_ws_size";
    assert "wsrep-provider-repl-max-ws-size" == ProviderOptionsPrefix + "repl" + "-" + ("max" + "-" + "ws" + "-" + "size");
    ProviderNameOfGroup("repl", "max" + "-" + "ws" + "-" + "size");
    ReplaceAppend("max" + "-" + "ws" + "-", "size", '-', '_');
    ReplaceAppend("max" + "-" + "ws", "-", '-', '_');
    ReplaceAppend("max" + "-", "ws", '-', '_');
    ReplaceAppend("max", "-", '-', '_');
    ReplaceAbsent("max", '-', '_');
    ReplaceAbsent("ws", '-', '_');
    ReplaceAbsent("size", '-', '_');
    assert Replace("-", '-', '_') == "_";
  }

  /** The options `make_my_options` builds for `sysvars`: one per non-null variable, in order. */
  function OptionsFor(sysvars: seq<Option<SysVar>>): (r: seq<MyOption>)
    ensures |r| <= |sysvars|
    ensures forall i :: 0 <= i < |r| ==> r[i].name.Some? && IsPrefix(ProviderOptionsPrefix, r[i].name.value)
    decreases |sysvars|
  {
    if sysvars == [] then []
    else
      var head := match sysvars[0]
        case None => []
        case Some(v) => [MyOption(Some(OptionNameFor(v.name)))];
      head + OptionsFor(sysvars[1..])
  }

  /** Building the options for two runs of variables is building them for each run in turn. */
  lemma {:induction false} OptionsForAppend(a: seq<Option<SysVar>>, b: seq<Option<SysVar>>)
    ensures OptionsFor(a + b) == OptionsFor(a) + OptionsFor(b)
    decreases |a|
  {
    if a != [] {
      assert (a + b)[1..] == a[1..] + b;
      OptionsForAppend(a[1..], b);
    } else {
      assert a + b == b;
    }
  }

  /** A null variable contributes no option; a variable contributes the option named after it. */
  lemma OptionsForSingle(v: Option<SysVar>)
    ensures OptionsFor([v]) == match v
      case None => []
      case Some(sv) => [MyOption(Some(OptionNameFor(sv.name)))]
  {
    assert [v][1..] == [];
  }

  /**
   * `make_my_options`: append to `myOptions` one option per non-null
   * variable, in order, and then a terminator with a null name.
   */
  method MakeMyOptions(myOptions: seq<MyOption>, sysvars: seq<Option<SysVar>>) returns (r: seq<MyOption>)
    ensures r == myOptions + OptionsFor(sysvars) + [MyOption(None)]
    ensures |r| <= |myOptions| + |sysvars| + 1 && r[|r| - 1].name.None?
  {
    r := myOptions;
    var k := 0;
    while k < |sysvars|
      invariant k <= |sysvars|
      invariant r == myOptions + OptionsFor(sysvars[..k])
    {
      assert sysvars[..k + 1] == sysvars[..k] + [sysvars[k]];
      OptionsForAppend(sysvars[..k], [sysvars[k]]);
      OptionsForSingle(sysvars[k]);
      var v := sysvars[k];
      if v.Some? {
        var name := MyOptionName(v.value.name);
        r := r + [MyOption(Some(name))];
      }
      k := k + 1;
    }
    assert sysvars[..k] == sysvars;
    r := r + [MyOption(None)];
  }

  /** The extra provider options string that `option_changed` appends to. */
  class ExtraOptions {
    var text: string

    constructor (text: string)
      ensures this.text == text
    {
      this.text := text;
    }
  }

  /**
   * `option_changed`: append `;name=value` for the option that was set to
   * the extra options string and answer 0.
   */
  method OptionChanged(opt: MyOption, value: string, extraOptions: ExtraOptions) returns (r: int)
    requires opt.name.Some? && NoNul(opt.name.value)
    modifies extraOptions
    ensures r == 0
    ensures extraOptions.text == old(extraOptions.text) + ";" + ProviderOptionString(opt.name.value, value)
    ensures old(extraOptions.text) <= extraOptions.text
  {
    var providerName := OptionNameToProviderName(opt.name.value);
    var optionString := providerName + "=" + value;
    extraOptions.text := extraOptions.text + ";";
    extraOptions.text := extraOptions.text + optionString;
    return 0;
  }
}
