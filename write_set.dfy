/**
 * Incremental draining of a transaction's binlog cache into a write-set
 * destination (`wsrep_write_cache_inc` and its two writers in
 * sql/wsrep_binlog.cc).
 *
 * The IO_CACHE is a value: the bytes written so far, the mode it is in and
 * its current position. Its buffer refills (`my_b_bytes_in_cache`,
 * `my_b_fill`) are an arbitrary chunking of the unread bytes, given as a
 * parameter, and whether the initial reposition for reading fails is a flag.
 */
module WriteSet {

  type byte = bv8

  datatype CacheMode = ReadCacheMode | WriteCacheMode

  /** An IO_CACHE: its contents, its mode and its read or write position. */
  datatype IoCache = IoCache(data: seq<byte>, mode: CacheMode, pos: nat)

  /** A cache that is open for appending at its end, where `my_b_tell` is `|data|`. */
  predicate WriteReady(c: IoCache) {
    c.mode == WriteCacheMode && c.pos == |c.data|
  }

  /** The concatenation of a sequence of chunks. */
  function Flatten(chunks: seq<seq<byte>>): (r: seq<byte>)
    decreases |chunks|
  {
    if chunks == [] then [] else chunks[0] + Flatten(chunks[1..])
  }

  /** `chunks` is how the cache hands out `bytes`: non-empty pieces, in order. */
  predicate IsChunking(chunks: seq<seq<byte>>, bytes: seq<byte>) {
    (forall k :: 0 <= k < |chunks| ==> chunks[k] != []) && Flatten(chunks) == bytes
  }

  /**
   * The replication provider's side of a streaming append: what it has
   * accepted so far, how many appends it has seen, and the status it answers
   * to each successive append (appends past the end of `status` succeed).
   */
  datatype ProviderState = ProviderState(appended: seq<byte>, calls: nat, status: seq<int>)

  /** The destination the cache is drained into. */
  datatype Writer =
    | BufferWriter(buffer: seq<byte>)        // appends to a growable in-memory buffer
    | ProviderWriter(provider: ProviderState) // appends straight to the provider

  /** The bytes the destination holds. */
  function Received(w: Writer): (bytes: seq<byte>) {
    match w
    case BufferWriter(b) => b
    case ProviderWriter(p) => p.appended
  }

  /** The status the writer will answer to its `k`-th append from now on. */
  function ReplyFor(w: Writer, k: nat): (st: int) {
    match w
    case BufferWriter(_) => 0
    case ProviderWriter(p) => if p.calls + k < |p.status| then p.status[p.calls + k] else 0
  }

  /**
   * `writer.write(data, length)`: the buffer writer appends the chunk and
   * answers 0; the provider writer answers the provider's status and the
   * provider keeps the chunk only when it answers 0.
   */
  function Write(w: Writer, chunk: seq<byte>): (r: (Writer, int))
    ensures r.1 == ReplyFor(w, 0)
    ensures r.0.BufferWriter? == w.BufferWriter?
  {
    match w
    case BufferWriter(b) => (BufferWriter(b + chunk), 0)
    case ProviderWriter(p) =>
      var st := if p.calls < |p.status| then p.status[p.calls] else 0;
      var appended := if st == 0 then p.appended + chunk else p.appended;
      (ProviderWriter(ProviderState(appended, p.calls + 1, p.status)), st)
  }

  /** The destination keeps the chunk exactly when the append answers 0. */
  lemma WriteEffect(w: Writer, chunk: seq<byte>)
    ensures Received(Write(w, chunk).0) == if Write(w, chunk).1 == 0 then Received(w) + chunk else Received(w)
  {
  }

  /**
   * `writer.cleanup_after_error()`: the buffer writer clears its buffer; the
   * provider writer keeps the base class's empty hook, since bytes already
   * appended to the provider cannot be taken back.
   */
  function CleanupAfterError(w: Writer): (r: Writer)
    ensures r.BufferWriter? == w.BufferWriter?
    ensures w.BufferWriter? ==> Received(r) == []
    ensures w.ProviderWriter? ==> r == w
  {
    match w
    case BufferWriter(_) => BufferWriter([])
    case ProviderWriter(_) => w
  }

  /**
   * Reference definition of the drain loop: the status it ends with and the
   * writer it leaves, with `total` bytes already counted against the limit.
   */
  function Drain(w: Writer, chunks: seq<seq<byte>>, total: nat, maxWsSize: nat): (r: (int, Writer))
    decreases |chunks|
  {
    if chunks == [] then (0, w)
    else if total + |chunks[0]| > maxWsSize then (1, w)
    else
      var written := Write(w, chunks[0]);
      if written.1 != 0 then (1, written.0)
      else Drain(written.0, chunks[1..], total + |chunks[0]|, maxWsSize)
  }

  lemma FlattenCons(chunks: seq<seq<byte>>)
    requires chunks != []
    ensures Flatten(chunks) == chunks[0] + Flatten(chunks[1..])
  {
  }

  /** The writer answers 0 to each of its next `n` appends. */
  predicate AcceptsNext(w: Writer, n: nat) {
    forall k {:trigger ReplyFor(w, k)} :: 0 <= k < n ==> ReplyFor(w, k) == 0
  }

  /** One append moves the writer on to its next answer. */
  lemma WriteShiftsReplies(w: Writer, chunk: seq<byte>, k: nat)
    ensures ReplyFor(Write(w, chunk).0, k) == ReplyFor(w, k + 1)
  {
  }

  /** After one append, the writer's remaining answers are its answers from the second on. */
  lemma AcceptsNextAfterWrite(w: Writer, chunk: seq<byte>, n: nat)
    ensures AcceptsNext(w, n + 1) <==> ReplyFor(w, 0) == 0 && AcceptsNext(Write(w, chunk).0, n)
  {
    var w1 := Write(w, chunk).0;
    if ReplyFor(w, 0) == 0 && AcceptsNext(w1, n) {
      forall k | 0 <= k < n + 1 ensures ReplyFor(w, k) == 0 {
        if k > 0 { WriteShiftsReplies(w, chunk, k - 1); }
      }
    }
    if AcceptsNext(w, n + 1) {
      forall k | 0 <= k < n ensures ReplyFor(w1, k) == 0 {
        WriteShiftsReplies(w, chunk, k);
      }
    }
  }

  /**
   * The drain succeeds exactly when the bytes counted stay within the limit
   * (a total equal to the limit is accepted) and the writer accepts every
   * chunk.
   */
  lemma {:induction false} DrainSucceedsIff(w: Writer, chunks: seq<seq<byte>>, total: nat, maxWsSize: nat)
    requires total <= maxWsSize
    ensures Drain(w, chunks, total, maxWsSize).0 == 0 <==>
      total + |Flatten(chunks)| <= maxWsSize && AcceptsNext(w, |chunks|)
    decreases |chunks|
  {
    if chunks != [] {
      var first := Write(w, chunks[0]);
      if total + |chunks[0]| <= maxWsSize && first.1 == 0 {
        DrainSucceedsIff(first.0, chunks[1..], total + |chunks[0]|, maxWsSize);
      }
      SucceedsStep(w, chunks, total, maxWsSize);
    }
  }

  /** The step of `DrainSucceedsIff`: the condition for the rest of the drain, plus the first chunk. */
  lemma SucceedsStep(w: Writer, chunks: seq<seq<byte>>, total: nat, maxWsSize: nat)
    requires chunks != [] && total <= maxWsSize
    requires total + |chunks[0]| <= maxWsSize && Write(w, chunks[0]).1 == 0 ==>
      var w1 := Write(w, chunks[0]).0;
      (Drain(w1, chunks[1..], total + |chunks[0]|, maxWsSize).0 == 0 <==>
         total + |chunks[0]| + |Flatten(chunks[1..])| <= maxWsSize && AcceptsNext(w1, |chunks| - 1))
    ensures Drain(w, chunks, total, maxWsSize).0 == 0 <==>
      total + |Flatten(chunks)| <= maxWsSize && AcceptsNext(w, |chunks|)
  {
    FlattenCons(chunks);
    DrainUnfold(w, chunks, total, maxWsSize);
    WriteEffect(w, chunks[0]);
    AcceptsNextAfterWrite(w, chunks[0], |chunks| - 1);
  }

  /** The drain loop ends with status 0 or 1. */
  lemma {:induction false} DrainStatus(w: Writer, chunks: seq<seq<byte>>, total: nat, maxWsSize: nat)
    ensures Drain(w, chunks, total, maxWsSize).0 == 0 || Drain(w, chunks, total, maxWsSize).0 == 1
    decreases |chunks|
  {
    if chunks != [] {
      var first := Write(w, chunks[0]);
      if total + |chunks[0]| <= maxWsSize && first.1 == 0 {
        DrainStatus(first.0, chunks[1..], total + |chunks[0]|, maxWsSize);
      }
    }
  }

  /** On success the writer has received every chunk, in order, exactly once. */
  lemma {:induction false} DrainDeliversAll(w: Writer, chunks: seq<seq<byte>>, total: nat, maxWsSize: nat)
    ensures Drain(w, chunks, total, maxWsSize).0 == 0 ==>
      Received(Drain(w, chunks, total, maxWsSize).1) == Received(w) + Flatten(chunks)
    decreases |chunks|
  {
    if chunks != [] {
      var first := Write(w, chunks[0]);
      if total + |chunks[0]| <= maxWsSize && first.1 == 0 {
        DrainDeliversAll(first.0, chunks[1..], total + |chunks[0]|, maxWsSize);
      }
      DeliversStep(w, chunks, total, maxWsSize);
    }
  }

  /** The step of `DrainDeliversAll`: what the rest of the drain delivers, plus the first chunk. */
  lemma DeliversStep(w: Writer, chunks: seq<seq<byte>>, total: nat, maxWsSize: nat)
    requires chunks != []
    requires total + |chunks[0]| <= maxWsSize && Write(w, chunks[0]).1 == 0 ==>
      var w1 := Write(w, chunks[0]).0;
      var d1 := Drain(w1, chunks[1..], total + |chunks[0]|, maxWsSize);
      d1.0 == 0 ==> Received(d1.1) == Received(w1) + Flatten(chunks[1..])
    ensures Drain(w, chunks, total, maxWsSize).0 == 0 ==>
      Received(Drain(w, chunks, total, maxWsSize).1) == Received(w) + Flatten(chunks)
  {
    FlattenCons(chunks);
    DrainUnfold(w, chunks, total, maxWsSize);
    WriteEffect(w, chunks[0]);
    var c := chunks[0];
    if total + |c| <= maxWsSize && Write(w, c).1 == 0 {
      AppendAssoc(Received(w), c, Flatten(chunks[1..]));
    }
  }

  /**
   * Whatever the outcome, the writer never receives more than the limit
   * allows (the chunk that crosses the limit is not written), and what it
   * received is the beginning of the bytes offered to it.
   */
  lemma {:induction false} DrainNeverExceedsLimit(w: Writer, chunks: seq<seq<byte>>, total: nat, maxWsSize: nat)
    requires total <= maxWsSize
    ensures Received(w) <= Received(Drain(w, chunks, total, maxWsSize).1) <= Received(w) + Flatten(chunks)
    ensures |Received(Drain(w, chunks, total, maxWsSize).1)| - |Received(w)| <= maxWsSize - total
    ensures Drain(w, chunks, total, maxWsSize).1.BufferWriter? == w.BufferWriter?
    decreases |chunks|
  {
    if chunks != [] {
      var first := Write(w, chunks[0]);
      if total + |chunks[0]| <= maxWsSize && first.1 == 0 {
        DrainNeverExceedsLimit(first.0, chunks[1..], total + |chunks[0]|, maxWsSize);
      }
      LimitStep(w, chunks, total, maxWsSize);
      DrainKeepsKind(w, chunks, total, maxWsSize);
    }
  }

  /** The step of `DrainNeverExceedsLimit` for the bytes received: they stay between the bounds. */
  lemma LimitStep(w: Writer, chunks: seq<seq<byte>>, total: nat, maxWsSize: nat)
    requires chunks != [] && total <= maxWsSize
    requires total + |chunks[0]| <= maxWsSize && Write(w, chunks[0]).1 == 0 ==>
      var w1 := Write(w, chunks[0]).0;
      var r := Drain(w1, chunks[1..], total + |chunks[0]|, maxWsSize).1;
      && Received(w1) <= Received(r) <= Received(w1) + Flatten(chunks[1..])
      && |Received(r)| - |Received(w1)| <= maxWsSize - (total + |chunks[0]|)
    ensures Received(w) <= Received(Drain(w, chunks, total, maxWsSize).1) <= Received(w) + Flatten(chunks)
    ensures |Received(Drain(w, chunks, total, maxWsSize).1)| - |Received(w)| <= maxWsSize - total
  {
    FlattenCons(chunks);
    DrainUnfold(w, chunks, total, maxWsSize);
    WriteEffect(w, chunks[0]);
    var c := chunks[0];
    var w1 := Write(w, c).0;
    if total + |c| > maxWsSize {
      PrefixOfAppend(Received(w), Flatten(chunks));
    } else if Write(w, c).1 != 0 {
      assert Received(w1) == Received(w);
      PrefixOfAppend(Received(w), Flatten(chunks));
    } else {
      var r := Drain(w1, chunks[1..], total + |c|, maxWsSize).1;
      PrefixThroughChunk(Received(w), c, Received(r), Flatten(chunks[1..]));
    }
  }

  /**
   * Draining into the provider leaves its list of answers as it was, so the
   * answers a later drain gets are the ones after those already consumed.
   */
  lemma {:induction false} DrainKeepsStatuses(w: Writer, chunks: seq<seq<byte>>, total: nat, maxWsSize: nat)
    requires w.ProviderWriter?
    ensures Drain(w, chunks, total, maxWsSize).1.ProviderWriter?
    ensures Drain(w, chunks, total, maxWsSize).1.provider.status == w.provider.status
    decreases |chunks|
  {
    if chunks != [] {
      DrainUnfold(w, chunks, total, maxWsSize);
      var first := Write(w, chunks[0]);
      assert first.0.ProviderWriter? && first.0.provider.status == w.provider.status;
      if total + |chunks[0]| <= maxWsSize && first.1 == 0 {
        DrainKeepsStatuses(first.0, chunks[1..], total + |chunks[0]|, maxWsSize);
      }
    }
  }

  /** The drain leaves a writer of the kind it was given. */
  lemma {:induction false} DrainKeepsKind(w: Writer, chunks: seq<seq<byte>>, total: nat, maxWsSize: nat)
    ensures Drain(w, chunks, total, maxWsSize).1.BufferWriter? == w.BufferWriter?
    decreases |chunks|
  {
    if chunks != [] {
      DrainUnfold(w, chunks, total, maxWsSize);
      WriteEffect(w, chunks[0]);
      if total + |chunks[0]| <= maxWsSize && Write(w, chunks[0]).1 == 0 {
        DrainKeepsKind(Write(w, chunks[0]).0, chunks[1..], total + |chunks[0]|, maxWsSize);
      }
    }
  }

  lemma PrefixOfAppend(p: seq<byte>, f: seq<byte>)
    ensures p <= p <= p + f
  {
    assert (p + f)[..|p|] == p;
  }

  lemma AppendAssoc(a: seq<byte>, b: seq<byte>, c: seq<byte>)
    ensures a + b + c == a + (b + c)
  {
  }

  /** What lies between `p + c` and `p + c + f` lies between `p` and `p + (c + f)`. */
  lemma PrefixThroughChunk(p: seq<byte>, c: seq<byte>, r: seq<byte>, f: seq<byte>)
    requires p + c <= r <= p + c + f
    ensures p <= r <= p + (c + f)
  {
    assert p + c + f == p + (c + f);
    assert r[..|p|] == (p + c)[..|p|] == p;
  }

  /**
   * `wsrep_write_cache_inc`: drain `cache` from `offset` into `writer`.
   * Returns the status, the caller's new offset, the writer afterwards and
   * the cache afterwards.
   */
  method WriteCacheInc(cache: IoCache, offset: nat, writer: Writer, chunks: seq<seq<byte>>,
                       repositionFails: bool, maxWsSize: nat)
    returns (ret: int, newOffset: nat, writer': Writer, cache': IoCache)
    requires WriteReady(cache) && offset <= |cache.data|
    requires IsChunking(chunks, cache.data[offset..])
    ensures ret == 0 || ret == 1
    ensures writer'.BufferWriter? == writer.BufferWriter?
    // a failed reposition writes nothing, cleans up nothing and leaves the offset
    ensures repositionFails ==> ret == 1 && newOffset == offset && writer' == writer && cache' == cache
    // after a successful reposition the cache is made ready for appending again
    ensures !repositionFails ==> cache' == IoCache(cache.data, WriteCacheMode, |cache.data|) && WriteReady(cache')
    // success iff within the limit (inclusive) and every chunk accepted
    ensures ret == 0 <==>
      !repositionFails && |cache.data| - offset <= maxWsSize && AcceptsNext(writer, |chunks|)
    // on success: exactly the unread bytes, in order, and the offset moves to the end
    ensures ret == 0 ==> newOffset == |cache.data| && Received(writer') == Received(writer) + cache.data[offset..]
    ensures ret != 0 ==> newOffset == offset
    // on a failure inside the loop the writer's cleanup has run
    ensures !repositionFails && ret != 0 ==>
      writer' == CleanupAfterError(Drain(writer, chunks, 0, maxWsSize).1)
    ensures !repositionFails && ret != 0 && writer.BufferWriter? ==> writer' == BufferWriter([])
    // the provider keeps what it accepted, never more than the limit
    ensures writer.ProviderWriter? ==>
      writer'.ProviderWriter? &&
      Received(writer) <= Received(writer') <= Received(writer) + cache.data[offset..] &&
      |Received(writer')| - |Received(writer)| <= maxWsSize &&
      writer'.provider.status == writer.provider.status
  {
    var savedPos := cache.pos;  // my_b_tell
    if repositionFails {
      return 1, offset, writer, cache;
    }
    var readPos;
    newOffset := offset;
    label cleanup: {
      ret, writer', readPos := DrainCache(IoCache(cache.data, ReadCacheMode, offset), writer, chunks, maxWsSize);
      if ret != 0 {
        break cleanup;  // the loop's `goto cleanup`
      }
      assert readPos == savedPos;
      newOffset := savedPos;
    }
    DrainSucceedsIff(writer, chunks, 0, maxWsSize);
    DrainDeliversAll(writer, chunks, 0, maxWsSize);
    DrainNeverExceedsLimit(writer, chunks, 0, maxWsSize);
    if writer.ProviderWriter? {
      DrainKeepsStatuses(writer, chunks, 0, maxWsSize);
    }
    if ret != 0 {
      writer' := CleanupAfterError(writer');
    }
    cache' := IoCache(cache.data, WriteCacheMode, savedPos);
  }

  /** One turn of the drain loop, on the refills still to come. */
  lemma DrainUnfold(w: Writer, rest: seq<seq<byte>>, total: nat, maxWsSize: nat)
    requires rest != []
    ensures total + |rest[0]| > maxWsSize ==> Drain(w, rest, total, maxWsSize) == (1, w)
    ensures total + |rest[0]| <= maxWsSize && Write(w, rest[0]).1 != 0 ==>
      Drain(w, rest, total, maxWsSize) == (1, Write(w, rest[0]).0)
    ensures total + |rest[0]| <= maxWsSize && Write(w, rest[0]).1 == 0 ==>
      Drain(w, rest, total, maxWsSize) == Drain(Write(w, rest[0]).0, rest[1..], total + |rest[0]|, maxWsSize)
  {
  }

  /**
   * The read loop of `wsrep_write_cache_inc`, on a cache opened for reading
   * at the caller's offset: it hands each refill to the writer until the
   * cache is exhausted, the limit is crossed or the writer fails. Returns
   * the status, the writer and the read position reached.
   */
  method DrainCache(c0: IoCache, writer: Writer, chunks: seq<seq<byte>>, maxWsSize: nat)
    returns (ret: int, w: Writer, readPos: nat)
    requires c0.mode == ReadCacheMode && c0.pos <= |c0.data| && IsChunking(chunks, c0.data[c0.pos..])
    ensures (ret, w) == Drain(writer, chunks, 0, maxWsSize) && (ret == 0 || ret == 1)
    ensures ret == 0 ==> readPos == |c0.data|
  {
    var c := c0;
    ret := 0;
    var total: nat := 0;
    w := writer;
    readPos := c.pos;
    ghost var d := Drain(writer, chunks, 0, maxWsSize);
    var length := if |chunks| > 0 then |chunks[0]| else 0;  // my_b_bytes_in_cache, my_b_fill
    if length > 0 {
      var rest := chunks;  // the refills still to come, the first one in the cache
      while true
        invariant rest != [] && length == |rest[0]|
        invariant total + |Flatten(rest)| == |c0.data| - c0.pos
        invariant c.data == c0.data && c.pos == c0.pos + total
        invariant d == Drain(w, rest, total, maxWsSize)
        decreases |rest|
      {
        FlattenCons(rest);
        DrainUnfold(w, rest, total, maxWsSize);
        total := total + length;
        if total > maxWsSize {
          return 1, w, c.pos;
        }
        var written := Write(w, rest[0]);
        w := written.0;
        if written.1 != 0 {
          return 1, w, c.pos;
        }
        c := c.(pos := c.pos + length);  // read_pos = read_end
        rest := rest[1..];
        if rest == [] {
          break;  // my_b_fill found nothing more
        }
        length := |rest[0]|;
      }
    }
    readPos := c.pos;
  }

  /**
   * `wsrep_write_cache_buf`: drain the whole cache (from offset 0) into a
   * growable buffer, which is appended to, or emptied on failure.
   */
  method WriteCacheBuf(cache: IoCache, buffer: seq<byte>, chunks: seq<seq<byte>>,
                       repositionFails: bool, maxWsSize: nat)
    returns (ret: int, buffer': seq<byte>, cache': IoCache)
    requires WriteReady(cache) && IsChunking(chunks, cache.data)
    ensures ret == 0 <==> !repositionFails && |cache.data| <= maxWsSize
    ensures ret == 0 ==> buffer' == buffer + cache.data
    ensures ret != 0 ==> buffer' == if repositionFails then buffer else []
    ensures !repositionFails ==> WriteReady(cache') && cache'.data == cache.data
    ensures repositionFails ==> cache' == cache
  {
    assert cache.data[0..] == cache.data;
    var offset, w;
    ret, offset, w, cache' := WriteCacheInc(cache, 0, BufferWriter(buffer), chunks, repositionFails, maxWsSize);
    buffer' := w.buffer;
  }

  /**
   * `wsrep_write_cache`: drain the cache from the caller's offset straight
   * into the provider.
   */
  method WriteCache(cache: IoCache, offset: nat, provider: ProviderState, chunks: seq<seq<byte>>,
                    repositionFails: bool, maxWsSize: nat)
    returns (ret: int, newOffset: nat, provider': ProviderState, cache': IoCache)
    requires WriteReady(cache) && offset <= |cache.data|
    requires IsChunking(chunks, cache.data[offset..])
    ensures ret == 0 <==>
      !repositionFails && |cache.data| - offset <= maxWsSize && AcceptsNext(ProviderWriter(provider), |chunks|)
    ensures ret == 0 ==> newOffset == |cache.data| && provider'.appended == provider.appended + cache.data[offset..]
    ensures ret != 0 ==> newOffset == offset
    ensures provider.appended <= provider'.appended <= provider.appended + cache.data[offset..]
    ensures |provider'.appended| - |provider.appended| <= maxWsSize
    ensures !repositionFails ==> WriteReady(cache') && cache'.data == cache.data
    // a failed first reposition writes nothing and leaves the cache as it was
    ensures repositionFails ==> provider' == provider && cache' == cache
    // the provider's answers are kept, so a later drain sees those not yet consumed
    ensures provider'.status == provider.status
  {
    var w;
    ret, newOffset, w, cache' := WriteCacheInc(cache, offset, ProviderWriter(provider), chunks, repositionFails, maxWsSize);
    provider' := w.provider;
  }
}
