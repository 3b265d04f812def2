/** A memoizer over a shared key-value store. A call looks its arguments up under the key
    `[salt] + args`. If the entry is missing, the producer runs and its encoded result is
    stored with the time it was generated. If the entry has no generation time or is older
    than `expireIn`, it is deleted and the lookup runs again. Otherwise the stored payload
    is decoded and returned. */
module KvMemo {
  import opened Wrappers

  newtype byte = x: int | 0 <= x < 256
  type Bytes = seq<byte>
  type Key = seq<string>

  /** What the store keeps under a key: the compressed payload and, when it was written
      by this memoizer, the time (in milliseconds) at which it was generated. */
  datatype Entry = Entry(value: Bytes, generated: Option<int>)
  type Store = map<Key, Entry>

  /** The `expireIn` used when the caller gives none: ten seconds. */
  const DefaultExpireIn: int := 1000 * 10

  /** An encoder and the decoder meant to undo it. */
  datatype Codec<!A, !B> = Codec(encode: A -> B, decode: B -> A)

  ghost predicate RoundTrips<A(!new), B>(c: Codec<A, B>) {
    forall x: A :: c.decode(c.encode(x)) == x
  }

  /** Encode with `first`, then with `second`; decode in the opposite order. */
  function Then<A, B, C>(first: Codec<A, B>, second: Codec<B, C>): Codec<A, C> {
    Codec(x => second.encode(first.encode(x)), z => first.decode(second.decode(z)))
  }

  /** A pipeline of codecs round-trips when each stage does. */
  lemma ThenRoundTrips<A(!new), B(!new), C>(first: Codec<A, B>, second: Codec<B, C>)
    requires RoundTrips(first) && RoundTrips(second)
    ensures RoundTrips(Then(first, second))
  {
    forall x: A ensures Then(first, second).decode(Then(first, second).encode(x)) == x {
      assert second.decode(second.encode(first.encode(x))) == first.encode(x);
    }
  }

  /** The stored payload: JSON text, then its UTF-8 bytes, then gzip. */
  function PayloadCodec<T>(json: Codec<T, string>, utf8: Codec<string, Bytes>, gzip: Codec<Bytes, Bytes>)
    : Codec<T, Bytes>
  {
    Then(Then(json, utf8), gzip)
  }

  /** The payload codec round-trips when stringify/parse, encode/decode and gzip/gunzip each do. */
  lemma PayloadRoundTrips<T(!new)>(json: Codec<T, string>, utf8: Codec<string, Bytes>, gzip: Codec<Bytes, Bytes>)
    requires RoundTrips(json) && RoundTrips(utf8) && RoundTrips(gzip)
    ensures RoundTrips(PayloadCodec(json, utf8, gzip))
  {
    ThenRoundTrips(json, utf8);
    ThenRoundTrips(Then(json, utf8), gzip);
  }

  /** The store key of a call: the salt followed by the arguments, in order. */
  function MemoKey(salt: string, xs: seq<string>): (key: Key)
    ensures |key| == |xs| + 1 && key[0] == salt && key[1..] == xs
  {
    [salt] + xs
  }

  /** Two calls share a store entry exactly when their salts and arguments are equal. */
  lemma MemoKeyInjective(salt: string, xs: seq<string>, salt': string, xs': seq<string>)
    ensures MemoKey(salt, xs) == MemoKey(salt', xs') <==> salt == salt' && xs == xs'
  {
    if MemoKey(salt, xs) == MemoKey(salt', xs') {
      assert MemoKey(salt, xs)[1..] == MemoKey(salt', xs')[1..];
    }
  }

  /** An entry is stale when it has no generation time or is strictly older than `expireIn`. */
  predicate Stale(e: Entry, now: int, expireIn: int) {
    e.generated.None? || now - e.generated.value > expireIn
  }

  datatype Lookup = Miss | Expired | Hit

  /** How a lookup of `key` at time `now` is resolved. */
  function Classify(store: Store, key: Key, now: int, expireIn: int): Lookup {
    if key !in store then Miss
    else if Stale(store[key], now, expireIn) then Expired
    else Hit
  }

  /** The outcome of one memoized call: the value returned, the store afterwards and how
      many times the producer ran. */
  datatype Reply<T> = Reply(result: T, store: Store, producerCalls: nat)

  /** The specification of a memoized call. A hit returns the decoded payload and changes
      nothing; a miss or an expired entry runs the producer once and stores its encoded
      result, generated at `storedAt`. */
  function Memo<T>(salt: string, fn: seq<string> -> T, codec: Codec<T, Bytes>, expireIn: int,
                   store: Store, xs: seq<string>, now: int, storedAt: int): Reply<T>
  {
    var key := MemoKey(salt, xs);
    if Classify(store, key, now, expireIn) == Hit then
      Reply(codec.decode(store[key].value), store, 0)
    else
      var r := fn(xs);
      Reply(r, store[key := Entry(codec.encode(r), Some(storedAt))], 1)
  }

  /** Every entry under `salt` holds the encoding of what the producer gives for its arguments. */
  ghost predicate Coherent<T>(salt: string, fn: seq<string> -> T, codec: Codec<T, Bytes>, store: Store) {
    forall xs :: MemoKey(salt, xs) in store ==> store[MemoKey(salt, xs)].value == codec.encode(fn(xs))
  }

  /** A fresh hit: the producer does not run, the store is unchanged and the stored payload is
      decoded. An entry whose age equals `expireIn` exactly is still fresh. */
  lemma HitSkipsProducer<T>(salt: string, fn: seq<string> -> T, codec: Codec<T, Bytes>, expireIn: int,
                            store: Store, xs: seq<string>, now: int, storedAt: int)
    requires MemoKey(salt, xs) in store
    requires store[MemoKey(salt, xs)].generated.Some?
    requires now - store[MemoKey(salt, xs)].generated.value <= expireIn
    ensures var reply := Memo(salt, fn, codec, expireIn, store, xs, now, storedAt);
      && reply.producerCalls == 0
      && reply.store == store
      && reply.result == codec.decode(store[MemoKey(salt, xs)].value)
  {
  }

  /** A miss, or an entry without generation time or older than `expireIn`: the producer runs
      exactly once, its result is returned unchanged, and only the call's own key changes,
      now holding the encoded result generated at `storedAt`. */
  lemma MissRunsProducerOnce<T>(salt: string, fn: seq<string> -> T, codec: Codec<T, Bytes>, expireIn: int,
                                store: Store, xs: seq<string>, now: int, storedAt: int)
    requires MemoKey(salt, xs) !in store || Stale(store[MemoKey(salt, xs)], now, expireIn)
    ensures var reply := Memo(salt, fn, codec, expireIn, store, xs, now, storedAt);
      && reply.producerCalls == 1
      && reply.result == fn(xs)
      && reply.store.Keys == store.Keys + {MemoKey(salt, xs)}
      && reply.store[MemoKey(salt, xs)] == Entry(codec.encode(fn(xs)), Some(storedAt))
      && forall k :: k in store && k != MemoKey(salt, xs) ==> reply.store[k] == store[k]
  {
  }

  /** The cache is transparent: with a round-tripping codec and a coherent store, every call
      returns what the producer gives for its arguments, and the store stays coherent. */
  lemma MemoTransparent<T(!new)>(salt: string, fn: seq<string> -> T, codec: Codec<T, Bytes>, expireIn: int,
                                 store: Store, xs: seq<string>, now: int, storedAt: int)
    requires RoundTrips(codec) && Coherent(salt, fn, codec, store)
    ensures var reply := Memo(salt, fn, codec, expireIn, store, xs, now, storedAt);
      reply.result == fn(xs) && Coherent(salt, fn, codec, reply.store)
  {
    var key := MemoKey(salt, xs);
    var reply := Memo(salt, fn, codec, expireIn, store, xs, now, storedAt);
    forall xs' | MemoKey(salt, xs') in reply.store
      ensures reply.store[MemoKey(salt, xs')].value == codec.encode(fn(xs'))
    {
      MemoKeyInjective(salt, xs, salt, xs');
    }
  }

  /** A call made after a miss or a refresh, no more than `expireIn` after the entry was
      generated, is a hit: the producer does not run again, the store does not change, and
      with a round-tripping codec the same value comes back. */
  lemma HitAfterStore<T(!new)>(salt: string, fn: seq<string> -> T, codec: Codec<T, Bytes>, expireIn: int,
                               store: Store, xs: seq<string>, now: int, storedAt: int, later: int)
    requires RoundTrips(codec)
    requires Classify(store, MemoKey(salt, xs), now, expireIn) != Hit
    requires later - storedAt <= expireIn
    ensures var first := Memo(salt, fn, codec, expireIn, store, xs, now, storedAt);
      var second := Memo(salt, fn, codec, expireIn, first.store, xs, later, later);
      && second.producerCalls == 0
      && second.store == first.store
      && second.result == first.result
  {
    var first := Memo(salt, fn, codec, expireIn, store, xs, now, storedAt);
    assert first.store[MemoKey(salt, xs)] == Entry(codec.encode(fn(xs)), Some(storedAt));
  }

  /** The outcome of memoized calls made one after another, each on the store the previous
      one left: the values returned, in order, the final store and the producer runs. */
  datatype Run<T> = Run(results: seq<T>, store: Store, producerCalls: nat)

  /** The specification of the calls `calls`, made in order at the same clock. */
  function MemoRun<T>(salt: string, fn: seq<string> -> T, codec: Codec<T, Bytes>, expireIn: int,
                      store: Store, calls: seq<seq<string>>, now: int, storedAt: int): (run: Run<T>)
    ensures |run.results| == |calls| && run.producerCalls <= |calls|
    decreases |calls|
  {
    if calls == [] then Run([], store, 0)
    else
      var prev := MemoRun(salt, fn, codec, expireIn, store, calls[..|calls| - 1], now, storedAt);
      var reply := Memo(salt, fn, codec, expireIn, prev.store, calls[|calls| - 1], now, storedAt);
      Run(prev.results + [reply.result], reply.store, prev.producerCalls + reply.producerCalls)
  }

  /** One more call extends the run by that call's reply on the store the run left. */
  lemma MemoRunSnoc<T>(salt: string, fn: seq<string> -> T, codec: Codec<T, Bytes>, expireIn: int,
                       store: Store, calls: seq<seq<string>>, xs: seq<string>, now: int, storedAt: int)
    ensures var prev := MemoRun(salt, fn, codec, expireIn, store, calls, now, storedAt);
      var reply := Memo(salt, fn, codec, expireIn, prev.store, xs, now, storedAt);
      MemoRun(salt, fn, codec, expireIn, store, calls + [xs], now, storedAt)
        == Run(prev.results + [reply.result], reply.store, prev.producerCalls + reply.producerCalls)
  {
    assert (calls + [xs])[..|calls|] == calls;
  }

  /** One call adds its own key to the store, if missing, and changes no other key. */
  lemma MemoStoreStep<T>(salt: string, fn: seq<string> -> T, codec: Codec<T, Bytes>, expireIn: int,
                         store: Store, xs: seq<string>, now: int, storedAt: int)
    ensures var reply := Memo(salt, fn, codec, expireIn, store, xs, now, storedAt);
      && reply.store.Keys == store.Keys + {MemoKey(salt, xs)}
      && forall k :: k in store && k != MemoKey(salt, xs) ==> reply.store[k] == store[k]
  {
  }

  /** The key of call `i` of a run is one of the keys a run adds. */
  ghost predicate CalledKey(salt: string, calls: seq<seq<string>>, k: Key) {
    exists i :: 0 <= i < |calls| && k == MemoKey(salt, calls[i])
  }

  /** After a run, the keys are those of the store before and those of the calls; every key
      that no call uses keeps its entry. */
  lemma {:induction false} MemoRunKeys<T>(salt: string, fn: seq<string> -> T, codec: Codec<T, Bytes>, expireIn: int,
                                          store: Store, calls: seq<seq<string>>, now: int, storedAt: int)
    ensures var run := MemoRun(salt, fn, codec, expireIn, store, calls, now, storedAt);
      && (forall k :: k in run.store <==> k in store || CalledKey(salt, calls, k))
      && (forall k :: k in store && !CalledKey(salt, calls, k) ==> run.store[k] == store[k])
    decreases |calls|
  {
    if calls != [] {
      var front, xs := calls[..|calls| - 1], calls[|calls| - 1];
      MemoRunKeys(salt, fn, codec, expireIn, store, front, now, storedAt);
      var prev := MemoRun(salt, fn, codec, expireIn, store, front, now, storedAt);
      MemoStoreStep(salt, fn, codec, expireIn, prev.store, xs, now, storedAt);
      forall k ensures CalledKey(salt, calls, k) <==> CalledKey(salt, front, k) || k == MemoKey(salt, xs) {
        if CalledKey(salt, front, k) {
          var i :| 0 <= i < |front| && k == MemoKey(salt, front[i]);
          assert calls[i] == front[i];
        }
        if CalledKey(salt, calls, k) && k != MemoKey(salt, xs) {
          var i :| 0 <= i < |calls| && k == MemoKey(salt, calls[i]);
          assert front[i] == calls[i];
        }
      }
      assert CalledKey(salt, calls, MemoKey(salt, xs)) by {
        assert calls[|calls| - 1] == xs;
      }
      var run := MemoRun(salt, fn, codec, expireIn, store, calls, now, storedAt);
      assert run.store == Memo(salt, fn, codec, expireIn, prev.store, xs, now, storedAt).store;
      forall k ensures k in run.store <==> k in store || CalledKey(salt, calls, k) {
      }
      forall k | k in store && !CalledKey(salt, calls, k) ensures run.store[k] == store[k] {
      }
    }
  }

  /** With a round-tripping codec and a coherent store, every call of a run returns what the
      producer gives for its arguments, and the store stays coherent. */
  lemma {:induction false} MemoRunTransparent<T(!new)>(salt: string, fn: seq<string> -> T, codec: Codec<T, Bytes>,
                                                       expireIn: int, store: Store, calls: seq<seq<string>>,
                                                       now: int, storedAt: int)
    requires RoundTrips(codec) && Coherent(salt, fn, codec, store)
    ensures var run := MemoRun(salt, fn, codec, expireIn, store, calls, now, storedAt);
      && (forall k :: 0 <= k < |calls| ==> run.results[k] == fn(calls[k]))
      && Coherent(salt, fn, codec, run.store)
    decreases |calls|
  {
    if calls != [] {
      var front := calls[..|calls| - 1];
      MemoRunTransparent(salt, fn, codec, expireIn, store, front, now, storedAt);
      var prev := MemoRun(salt, fn, codec, expireIn, store, front, now, storedAt);
      MemoTransparent(salt, fn, codec, expireIn, prev.store, calls[|calls| - 1], now, storedAt);
      var run := MemoRun(salt, fn, codec, expireIn, store, calls, now, storedAt);
      forall k | 0 <= k < |calls| ensures run.results[k] == fn(calls[k]) {
        if k < |front| {
          assert run.results[k] == prev.results[k] && front[k] == calls[k];
        }
      }
    }
  }

  /** The key-value store, shared by every memoized function of the program. */
  class Kv {
    var data: Store

    /** `Deno.openKv()`: the store opens with whatever earlier runs left in it. */
    constructor (contents: Store)
      ensures data == contents
    {
      data := contents;
    }

    /** `kv.get(key)`: the entry, or `None` for a null value. */
    method Get(key: Key) returns (e: Option<Entry>)
      ensures e.Some? <==> key in data
      ensures e.Some? ==> e.value == data[key]
    {
      e := if key in data then Some(data[key]) else None;
    }

    /** `kv.set(key, e)`. */
    method Set(key: Key, e: Entry)
      modifies this
      ensures data == old(data)[key := e]
    {
      data := data[key := e];
    }

    /** `kv.delete(key)`. */
    method Delete(key: Key)
      modifies this
      ensures data == old(data) - {key}
    {
      data := data - {key};
    }
  }

  /** `kv_memoize(salt, fn, expireIn)`: the memoized version of `fn`. */
  class Memoizer<T(!new)> {
    const kv: Kv
    const salt: string
    const fn: seq<string> -> T
    const codec: Codec<T, Bytes>
    const expireIn: int

    constructor (kv: Kv, salt: string, fn: seq<string> -> T, codec: Codec<T, Bytes>,
                 expireIn: int := DefaultExpireIn)
      ensures this.kv == kv && this.salt == salt && this.codec == codec && this.expireIn == expireIn
      ensures forall xs :: this.fn(xs) == fn(xs)
    {
      this.kv := kv;
      this.salt := salt;
      this.fn := fn;
      this.codec := codec;
      this.expireIn := expireIn;
    }

    /** The codec round-trips and every entry under this salt was written by this memoizer. */
    ghost predicate Valid()
      reads this, kv
    {
      RoundTrips(codec) && Coherent(salt, fn, codec, kv.data)
    }

    /** `inner(...xs)`: `now` is the clock when an entry's age is checked and `storedAt` the
        clock when a freshly produced result is written. An expired entry is deleted and the
        lookup repeats; the repeat is a miss, so it recurses at most once and the producer
        runs at most once. */
    method Inner(xs: seq<string>, now: int, storedAt: int) returns (r: T, calls: nat)
      modifies kv
      ensures var reply := Memo(salt, fn, codec, expireIn, old(kv.data), xs, now, storedAt);
        r == reply.result && kv.data == reply.store && calls == reply.producerCalls
      decreases if MemoKey(salt, xs) in kv.data then 1 else 0
    {
      var key := MemoKey(salt, xs);
      var cached := kv.Get(key);
      if cached.Some? {
        var data := cached.value;
        if data.generated.None? || now - data.generated.value > expireIn {
          kv.Delete(key);
          r, calls := Inner(xs, now, storedAt);
          return;
        }
        r := codec.decode(data.value);
        calls := 0;
      } else {
        r := fn(xs);
        kv.Set(key, Entry(codec.encode(r), Some(storedAt)));
        calls := 1;
      }
    }

    /** The memoized function itself: a call behaves as `Memo` says and, on a valid
        memoizer, returns exactly what the producer gives and keeps the memoizer valid. */
    method Call(xs: seq<string>, now: int, storedAt: int) returns (r: T, calls: nat)
      modifies kv
      ensures var reply := Memo(salt, fn, codec, expireIn, old(kv.data), xs, now, storedAt);
        r == reply.result && kv.data == reply.store && calls == reply.producerCalls
      ensures old(Valid()) ==> Valid() && r == fn(xs)
    {
      ghost var valid := Valid();
      if valid {
        MemoTransparent(salt, fn, codec, expireIn, kv.data, xs, now, storedAt);
      }
      r, calls := Inner(xs, now, storedAt);
    }
  }
}
