/** A client's session handle: a local cache of values, absent ones included, in front of the provider. */
module SessionCaches {
  import opened Basics
  import opened Clocks
  import opened MemoryProviders
  import opened Sessions
  import opened TokenValues
  import Index
  import Store

  /** The value coder; either direction may fail. */
  datatype Coder<!V> = Coder(encode: V -> Option<Bytes>, decode: Bytes -> Option<V>)

  function Encoding<V>(coder: Coder<V>, pair: (string, V)): Option<Pair> {
    match coder.encode(pair.1)
    case None => None
    case Some(b) => Some(Pair(pair.0, b))
  }

  /** The encoded pairs, or the coder's error when one does not encode. */
  function Encoded<V>(coder: Coder<V>, pairs: seq<(string, V)>): Result<seq<Pair>>
    decreases |pairs|
  {
    if pairs == [] then Ok([])
    else
      match Encoding(coder, pairs[0])
      case None => Err(CoderFailed)
      case Some(p) =>
        match Encoded(coder, pairs[1..])
        case Err(e) => Err(e)
        case Ok(kv) => Ok([p] + kv)
  }

  /** Values to bytes, in order, up to the first that does not encode. */
  method EncodeAll<V>(coder: Coder<V>, pairs: seq<(string, V)>) returns (r: Result<seq<Pair>>)
    ensures r == Encoded(coder, pairs)
  {
    var kv := [];
    assert pairs[0..] == pairs;
    assert Encoded(coder, pairs).Ok? ==> kv + Encoded(coder, pairs).value == Encoded(coder, pairs).value;
    for i := 0 to |pairs|
      invariant Encoded(coder, pairs) == Prefixed(kv, Encoded(coder, pairs[i..]))
    {
      assert pairs[i..][1..] == pairs[i + 1..];
      match Encoding(coder, pairs[i]) {
        case None => return Err(CoderFailed);
        case Some(p) =>
          PrefixedSnoc(kv, p, Encoded(coder, pairs[i + 1..]));
          kv := kv + [p];
      }
    }
    assert pairs[|pairs|..] == [] && kv + [] == kv;
    r := Ok(kv);
  }

  function Prefixed(kv: seq<Pair>, r: Result<seq<Pair>>): Result<seq<Pair>> {
    match r
    case Err(e) => Err(e)
    case Ok(rest) => Ok(kv + rest)
  }

  lemma PrefixedSnoc(kv: seq<Pair>, p: Pair, r: Result<seq<Pair>>)
    ensures Prefixed(kv + [p], r) == Prefixed(kv, Prefixed([p], r))
  {
    if r.Ok? {
      assert (kv + [p]) + r.value == kv + ([p] + r.value);
    }
  }

  /** Encoding succeeds exactly when every value encodes, and then pair by pair. */
  lemma {:induction false} EncodedEach<V>(coder: Coder<V>, pairs: seq<(string, V)>)
    ensures Encoded(coder, pairs).Ok? <==> forall i :: 0 <= i < |pairs| ==> Encoding(coder, pairs[i]).Some?
    ensures Encoded(coder, pairs).Err? ==> Encoded(coder, pairs).error == CoderFailed
    ensures Encoded(coder, pairs).Ok? ==>
      && |Encoded(coder, pairs).value| == |pairs|
      && forall i :: 0 <= i < |pairs| ==> Encoding(coder, pairs[i]) == Some(Encoded(coder, pairs).value[i])
    decreases |pairs|
  {
    if pairs != [] {
      EncodedEach(coder, pairs[1..]);
      assert forall i :: 1 <= i < |pairs| ==> pairs[i] == pairs[1..][i - 1];
    }
  }

  /** What a value reads back as. */
  function Decoded<V>(coder: Coder<V>, v: Value): Result<V> {
    match v
    case Absent => Err(KeyNotExists)
    case Present(b) =>
      match coder.decode(b)
      case None => Err(CoderFailed)
      case Some(x) => Ok(x)
  }

  /** Decoding undoes encoding, for this value. */
  predicate Undoes<V(==)>(coder: Coder<V>, v: V) {
    coder.encode(v).Some? ==> coder.decode(coder.encode(v).value) == Some(v)
  }

  /** The value a list of pairs gives `key`, if any: the last one. */
  function LastGiven<V>(pairs: seq<(string, V)>, key: string): Option<V> {
    if pairs == [] then None
    else if pairs[|pairs| - 1].0 == key then Some(pairs[|pairs| - 1].1)
    else LastGiven(pairs[..|pairs| - 1], key)
  }

  /** Storing the encoding of `pairs` and reading a key back gives the last value given for it. */
  lemma {:induction false} EncodedReadsBack<V>(coder: Coder<V>, pairs: seq<(string, V)>, kv: seq<Pair>, key: string)
    requires |kv| == |pairs| && forall i :: 0 <= i < |pairs| ==> Encoding(coder, pairs[i]) == Some(kv[i])
    requires forall i :: 0 <= i < |pairs| ==> Undoes(coder, pairs[i].1)
    ensures Decoded(coder, ValueOf(PutAll(map[], kv), key))
         == match LastGiven(pairs, key)
            case Some(v) => Ok(v)
            case None => Err(KeyNotExists)
    decreases |pairs|
  {
    if pairs != [] {
      var n := |pairs| - 1;
      EncodedReadsBack(coder, pairs[..n], kv[..n], key);
      assert kv == kv[..n] + [kv[n]];
      PutAllSnoc(map[], kv[..n], kv[n]);
      assert Undoes(coder, pairs[n].1);
    }
  }

  /** Every cached entry is what the store would answer. */
  ghost predicate Agrees(keys: map<string, Value>, data: map<string, Bytes>) {
    forall k :: k in keys ==> keys[k] == ValueOf(data, k)
  }

  /** The cache after a put. */
  function Cached(keys: map<string, Value>, kv: seq<Pair>): map<string, Value>
    decreases |kv|
  {
    if kv == [] then keys else Cached(keys[kv[0].key := Present(kv[0].value)], kv[1..])
  }

  lemma {:induction false} CachedSnoc(keys: map<string, Value>, kv: seq<Pair>, p: Pair)
    ensures Cached(keys, kv + [p]) == Cached(keys, kv)[p.key := Present(p.value)]
    decreases |kv|
  {
    if kv == [] {
      assert kv + [p] == [p];
    } else {
      assert (kv + [p])[1..] == kv[1..] + [p];
      CachedSnoc(keys[kv[0].key := Present(kv[0].value)], kv[1..], p);
    }
  }

  /** After a put the cache holds, for every key of the pairs, the last value given, and all else it held. */
  lemma {:induction false} CachedLast(keys: map<string, Value>, kv: seq<Pair>, k: string)
    ensures LastFor(kv, k).Some? ==> k in Cached(keys, kv) && Cached(keys, kv)[k] == Present(LastFor(kv, k).value)
    ensures LastFor(kv, k) == None ==>
      (k in Cached(keys, kv) <==> k in keys) && (k in keys ==> Cached(keys, kv)[k] == keys[k])
    decreases |kv|
  {
    if kv != [] {
      var init, last := kv[..|kv| - 1], kv[|kv| - 1];
      assert kv == init + [last];
      CachedSnoc(keys, init, last);
      CachedLast(keys, init, k);
    }
  }

  lemma CachedNone(keys: map<string, Value>)
    ensures Cached(keys, []) == keys
  {
  }

  /** Writing the same pairs to cache and store, in the same order, keeps them in agreement. */
  lemma {:induction false} PutAgrees(keys: map<string, Value>, data: map<string, Bytes>, kv: seq<Pair>)
    requires Agrees(keys, data)
    ensures Agrees(Cached(keys, kv), PutAll(data, kv))
    decreases |kv|
  {
    if kv != [] {
      PutAgrees(keys[kv[0].key := Present(kv[0].value)], data[kv[0].key := kv[0].value], kv[1..]);
    }
  }

  lemma PutAgreesIf(keys: map<string, Value>, data: map<string, Bytes>, kv: seq<Pair>)
    ensures Agrees(keys, data) ==> Agrees(Cached(keys, kv), PutAll(data, kv))
  {
    hide Agrees, Cached, PutAll;
    if Agrees(keys, data) {
      PutAgrees(keys, data, kv);
    }
  }

  /** The keys that are not cached, in order, as often as they are asked for. */
  function MissingKeys(keys: map<string, Value>, wanted: seq<string>): seq<string>
    decreases |wanted|
  {
    if wanted == [] then []
    else (if wanted[0] in keys then [] else [wanted[0]]) + MissingKeys(keys, wanted[1..])
  }

  /** The cache after fetched values have been written to it, in turn. */
  function Fetched(keys: map<string, Value>, missing: seq<string>, vals: seq<Value>): map<string, Value>
    requires |missing| == |vals|
    decreases |missing|
  {
    if missing == [] then keys else Fetched(keys[missing[0] := vals[0]], missing[1..], vals[1..])
  }

  lemma FetchedNone(keys: map<string, Value>)
    ensures Fetched(keys, [], []) == keys
  {
  }

  lemma {:induction false} FetchedSnoc(keys: map<string, Value>, missing: seq<string>, vals: seq<Value>, k: string,
                                     v: Value)
    requires |missing| == |vals|
    ensures Fetched(keys, missing + [k], vals + [v]) == Fetched(keys, missing, vals)[k := v]
    decreases |missing|
  {
    if missing == [] {
      assert missing + [k] == [k] && vals + [v] == [v];
    } else {
      assert (missing + [k])[1..] == missing[1..] + [k] && (vals + [v])[1..] == vals[1..] + [v];
      FetchedSnoc(keys[missing[0] := vals[0]], missing[1..], vals[1..], k, v);
    }
  }

  /** Filling the cache with what the store holds keeps the two in agreement, repeated keys included, adds exactly the
      fetched keys and leaves other entries alone. */
  lemma {:induction false} FetchedAgrees(keys: map<string, Value>, missing: seq<string>, data: map<string, Bytes>)
    ensures Agrees(keys, data) ==> Agrees(Fetched(keys, missing, ValuesOf(data, missing)), data)
    ensures Fetched(keys, missing, ValuesOf(data, missing)).Keys == keys.Keys + (set k | k in missing)
    ensures forall k :: k in keys && k !in missing ==> Fetched(keys, missing, ValuesOf(data, missing))[k] == keys[k]
    decreases |missing|
  {
    if missing != [] {
      FetchedAgrees(keys[missing[0] := ValueOf(data, missing[0])], missing[1..], data);
      assert ValuesOf(data, missing)[1..] == ValuesOf(data, missing[1..]);
      assert missing == [missing[0]] + missing[1..];
    }
  }

  lemma {:induction false} MissingMembers(keys: map<string, Value>, wanted: seq<string>)
    ensures forall k :: k in MissingKeys(keys, wanted) <==> k in wanted && k !in keys
    decreases |wanted|
  {
    if wanted != [] {
      MissingMembers(keys, wanted[1..]);
      assert wanted == [wanted[0]] + wanted[1..];
    }
  }

  /** Deleting keys from the store only keeps the agreement exactly when none of them is cached as present. */
  lemma DataDeletedIff(keys: map<string, Value>, data: map<string, Bytes>, deleted: seq<string>)
    requires Agrees(keys, data)
    ensures Agrees(keys, DeleteAll(data, deleted)) <==> forall k :: k in keys && k in deleted ==> keys[k] == Absent
  {
    var after := DeleteAll(data, deleted);
    forall k | k in keys
      ensures keys[k] == ValueOf(after, k) <==> (k in deleted ==> keys[k] == Absent)
    {
      assert keys[k] == ValueOf(data, k);
    }
  }

  /** The cache of a client with `token` agrees with the stored sessions. */
  ghost predicate CoherentWith(keys: map<string, Value>, s: seq<Sessions.Session>, token: string) {
    match Lookup(s, token)
    case None => true
    case Some(x) => Agrees(keys, x.data)
  }

  /** Session.Delete takes any token, and leaves the cache alone. The cache keeps agreeing exactly when the call fails,
      or names another token, or none of the deleted keys is cached as present. */
  lemma DeleteAgreesIff(cfg: Config, keys: map<string, Value>, s: seq<Sessions.Session>, t: seq<Sessions.Session>,
                        token: string, tok: string, deleted: seq<string>, now: int, later: int, e: Option<Error>)
    requires CoherentWith(keys, s, token)
    requires Store.LazyStep(cfg, Store.Open(s), Store.Delete(tok, deleted), now, later)
          == Store.Outcome(Store.Open(t), Store.ReplyOf(e))
    ensures CoherentWith(keys, t, token)
       <==> e.Some? || tok != token || forall k :: k in keys && k in deleted ==> keys[k] == Absent
  {
    hide Lookup, DeleteAll, Without, SetData, Agrees, Store.CheckToken;
    LookupWithout(s, tok, token);
    if Lookup(s, tok).Some? {
      LookupSetData(s, tok, DeleteAll(Lookup(s, tok).value.data, deleted), token);
    }
    if e == None && tok == token {
      DataDeletedIff(keys, Lookup(s, token).value.data, deleted);
    }
  }

  /** A call that breaks the agreement: a live session whose one value is cached, deleted under its own token. */
  lemma StaleAfterDelete()
    ensures
      var x := Sessions.Session("u", "u.a.x", "u.r.x", 10, 20, map["k" := [1]]);
      var out := Store.LazyStep(Config(10, 20, -1), Store.Open([x]), Store.Delete("u.a.x", ["k"]), 5, 5);
      && CoherentWith(map["k" := Present([1])], [x], "u.a.x")
      && out.reply == Store.Done && out.state.Open?
      && !CoherentWith(map["k" := Present([1])], out.state.sessions, "u.a.x")
  {
    var keys := map["k" := Present([1])];
    var x := Sessions.Session("u", "u.a.x", "u.r.x", 10, 20, map["k" := [1]]);
    var out := Store.LazyStep(Config(10, 20, -1), Store.Open([x]), Store.Delete("u.a.x", ["k"]), 5, 5);
    Store.SplitsAs('a', 'x');
    assert Lookup([x], "u.a.x") == Some(x);
    assert "k" in keys && "k" in ["k"];
    DeleteAgreesIff(Config(10, 20, -1), keys, [x], out.state.sessions, "u.a.x", "u.a.x", ["k"], 5, 5, None);
  }

  /** A put through the store keeps the cache in agreement when it writes the same pairs, and only then touches it. */
  lemma PutCoherent(cfg: Config, keys: map<string, Value>, s: seq<Sessions.Session>, t: seq<Sessions.Session>,
                    token: string, kv: seq<Pair>, now: int, later: int, e: Option<Error>)
    requires Store.LazyStep(cfg, Store.Open(s), Store.Put(token, kv), now, later)
          == Store.Outcome(Store.Open(t), Store.ReplyOf(e))
    requires CoherentWith(keys, s, token)
    ensures CoherentWith(if e == None then Cached(keys, kv) else keys, t, token)
  {
    hide Lookup, PutAll, Without, SetData, Agrees, Cached, Store.CheckToken;
    LookupWithout(s, token, token);
    if Lookup(s, token).Some? {
      LookupSetData(s, token, PutAll(Lookup(s, token).value.data, kv), token);
      PutAgreesIf(keys, Lookup(s, token).value.data, kv);
    }
  }

  /** What a get through the store answers: one value per key from the stored data, or an error, never that a key does
      not exist. */
  lemma GetReplies(cfg: Config, st: Store.State, token: string, keys: seq<string>, now: int, later: int)
    ensures
      var reply := Store.LazyStep(cfg, st, Store.Get(token, keys), now, later).reply;
      match reply
      case Failed(e) => e != KeyNotExists
      case Values(vals) =>
        st.Open? && Lookup(st.sessions, token).Some? && vals == ValuesOf(Lookup(st.sessions, token).value.data, keys)
      case _ => false
  {
    hide Lookup;
  }

  /** What is sent to a provider: encoded values, each in an array of its own. */
  method Encode<V>(provider: MemoryProvider, coder: Coder<V>, pairs: seq<(string, V)>)
    returns (r: Result<seq<Pair>>, sent: seq<PairBytes>)
    requires provider.Valid()
    ensures provider.Valid()
    ensures r == Encoded(coder, pairs)
    ensures r.Ok? ==> PairsOf(sent) == r.value
  {
    hide Index.Linked;
    r := EncodeAll(coder, pairs);
    sent := [];
    if r.Ok? {
      sent := ToPairBytes(r.value);
    }
  }

  class Session<!V> {
    const id: string
    const token: string
    const provider: MemoryProvider
    const coder: Coder<V>
    var keys: map<string, Value>

    constructor (id: string, token: string, provider: MemoryProvider, coder: Coder<V>)
      ensures this.id == id && this.token == token && this.provider == provider && this.coder == coder
      ensures keys == map[]
    {
      this.id, this.token, this.provider, this.coder, keys := id, token, provider, coder, map[];
    }

    /** Every cached entry, "absent" ones included, is what `provider.Get` would return for a live session. */
    ghost predicate Coherent()
      reads this, provider
    {
      CoherentWith(keys, provider.sessions, token)
    }

    /** Put: the encoded pairs go to the store, then to the cache; a failure anywhere leaves the cache alone. */
    method Put(pairs: seq<(string, V)>, clock: Clock) returns (e: Option<Error>, ghost now: int, ghost later: int)
      requires provider.Valid()
      modifies this`keys, provider, provider.lru, provider.Bufs(), clock
      ensures provider.Valid() && old(clock.now) <= now <= later <= clock.now
      ensures pairs == [] ==> e == None
      ensures pairs != [] && Encoded(coder, pairs).Err? ==> e == Some(Encoded(coder, pairs).error)
      ensures pairs == [] || Encoded(coder, pairs).Err? ==> provider.State() == old(provider.State())
      ensures pairs != [] && Encoded(coder, pairs).Ok? ==>
        Store.LazyStep(provider.cfg, old(provider.State()), Store.Put(token, Encoded(coder, pairs).value), now, later)
        == Store.Outcome(provider.State(), Store.ReplyOf(e))
      ensures keys == if pairs != [] && e == None then Cached(old(keys), Encoded(coder, pairs).value) else old(keys)
      ensures old(Coherent()) ==> Coherent()
    {
      hide MemoryProvider.Valid, Store.LazyStep, CoherentWith, Cached, Encoded;
      now, later := clock.now, clock.now;
      if |pairs| == 0 {
        return None, now, later;
      }
      var kv, sent := Encode(provider, coder, pairs);
      if kv.Err? {
        return Some(kv.error), now, later;
      }
      ghost var s := provider.sessions;
      NeverStored();
      e, now, later := provider.Put(token, sent, clock);
      NeverStored();
      if provider.State().Open? && old(Coherent()) {
        StillOpen(old(provider.State()), provider.State(), Store.Put(token, kv.value), now, later, Store.ReplyOf(e));
        PutCoherent(provider.cfg, keys, s, provider.sessions, token, kv.value, now, later, e);
      }
      if e == None {
        CachePut(kv.value);
      }
    }

    /** No call opens a closed store. */
    lemma StillOpen(before: Store.State, after: Store.State, op: Store.Op, now: int, later: int, reply: Store.Reply)
      requires Store.LazyStep(provider.cfg, before, op, now, later) == Store.Outcome(after, reply)
      ensures after.Open? ==> before.Open?
    {
    }

    lemma NeverStored()
      requires provider.Valid()
      ensures provider.done ==> forall k :: CoherentWith(k, provider.sessions, token)
    {
      hide Index.Linked;
    }

    /** The loop that fills the cache after a successful put. */
    method CachePut(kv: seq<Pair>)
      modifies this`keys
      requires provider.Valid()
      ensures provider.Valid() && keys == Cached(old(keys), kv)
    {
      hide MemoryProvider.Valid, Cached;
      assert kv[..0] == [];
      CachedNone(keys);
      for i := 0 to |kv|
        invariant provider.Valid() && keys == Cached(old(keys), kv[..i])
      {
        CachedSnoc(old(keys), kv[..i], kv[i]);
        assert kv[..i + 1] == kv[..i] + [kv[i]];
        Remember(kv[i].key, Present(kv[i].value));
      }
      assert kv[..|kv|] == kv;
    }

    /** Prepare: fetch what is not cached yet, absent values included; repeated keys are fetched twice and agree. */
    method Prepare(wanted: seq<string>, clock: Clock) returns (e: Option<Error>, ghost now: int, ghost later: int)
      requires provider.Valid()
      modifies this`keys, clock
      ensures provider.Valid() && old(clock.now) <= now <= later <= clock.now
      ensures MissingKeys(old(keys), wanted) == [] ==> e == None && keys == old(keys)
      ensures
        var missing := MissingKeys(old(keys), wanted);
        missing != [] ==>
          match Store.LazyStep(provider.cfg, provider.State(), Store.Get(token, missing), now, later).reply
          case Failed(err) => e == Some(err) && keys == old(keys)
          case Values(vals) => e == None && |vals| == |missing| && keys == Fetched(old(keys), missing, vals)
          case _ => false
      ensures e == None ==> forall k :: k in wanted ==> k in keys
      ensures forall k :: k in old(keys) ==> k in keys && keys[k] == old(keys)[k]
      ensures old(Coherent()) ==> Coherent()
    {
      hide Lookup, MemoryProvider.Valid, Store.LazyStep, Agrees, Fetched, MissingKeys;
      now, later := clock.now, clock.now;
      var missing := Missing(wanted);
      MissingMembers(keys, wanted);
      if |missing| == 0 {
        return None, now, later;
      }
      ghost var got;
      var vals, post;
      vals, e, post, now, later, got := provider.Get(token, missing, clock);
      GetReplies(provider.cfg, provider.State(), token, missing, now, later);
      if e != None {
        return;
      }
      if vals.Length != |missing| {
        return Some(ProviderReturnNotMatch), now, later;
      }
      FetchedAgrees(keys, missing, Lookup(provider.sessions, token).value.data);
      Fill(missing, vals, got);
    }

    /** The keys that are not cached, in order. */
    method Missing(wanted: seq<string>) returns (r: seq<string>)
      requires provider.Valid()
      ensures provider.Valid() && r == MissingKeys(keys, wanted)
    {
      hide MemoryProvider.Valid;
      r := [];
      for i := 0 to |wanted|
        invariant r + MissingKeys(keys, wanted[i..]) == MissingKeys(keys, wanted)
      {
        assert wanted[i..][1..] == wanted[i + 1..];
        if wanted[i] !in keys {
          r := r + [wanted[i]];
        }
      }
    }

    /** Prepare's last loop. */
    method Fill(missing: seq<string>, vals: array<Slot>, ghost got: seq<Value>)
      requires vals.Length == |missing| == |got| && provider.Valid()
      requires forall i :: 0 <= i < |got| ==> got[i] == ValueOfSlot(vals[i])
      modifies this`keys
      ensures provider.Valid() && keys == Fetched(old(keys), missing, got)
    {
      hide MemoryProvider.Valid, Fetched;
      FetchedNone(keys);
      assert missing[..0] == [] && got[..0] == [];
      for i := 0 to |missing|
        invariant provider.Valid() && keys == Fetched(old(keys), missing[..i], got[..i])
        invariant forall j :: 0 <= j < |got| ==> got[j] == ValueOfSlot(vals[j])
      {
        FetchedSnoc(old(keys), missing[..i], got[..i], missing[i], got[i]);
        assert missing[..i + 1] == missing[..i] + [missing[i]] && got[..i + 1] == got[..i] + [got[i]];
        Remember(missing[i], ValueOfSlot(vals[i]));
      }
      assert missing[..|missing|] == missing && got[..|missing|] == got;
    }

    /** Get: from the cache if the key is there, absent or not; otherwise one value is fetched and remembered. A
        value that does not decode is not remembered. */
    method Get(key: string, clock: Clock) returns (r: Result<V>, ghost now: int, ghost later: int)
      requires provider.Valid()
      modifies this`keys, clock
      ensures provider.Valid() && old(clock.now) <= now <= later <= clock.now
      ensures key in old(keys) ==> r == Decoded(coder, old(keys)[key]) && keys == old(keys)
      ensures key !in old(keys) ==>
        match Store.LazyStep(provider.cfg, provider.State(), Store.Get(token, [key]), now, later).reply
        case Failed(e) => r == Err(e) && keys == old(keys)
        case Values(vals) =>
          && |vals| == 1 && r == Decoded(coder, vals[0])
          && keys == if r.Ok? || vals[0].Absent? then old(keys)[key := vals[0]] else old(keys)
        case _ => false
      ensures old(Coherent()) ==> Coherent()
      ensures old(Coherent()) && r.Ok? ==> match Lookup(provider.sessions, token)
                                           case None => key in old(keys)
                                           case Some(x) => key in x.data && coder.decode(x.data[key]) == Some(r.value)
      ensures old(Coherent()) && r == Err(KeyNotExists) ==> match Lookup(provider.sessions, token)
                                                            case None => key in old(keys)
                                                            case Some(x) => key !in x.data
    {
      hide Lookup, MemoryProvider.Valid, Store.LazyStep;
      now, later := clock.now, clock.now;
      if key in keys {
        r := Decode(keys[key]);
        return;
      }
      ghost var got;
      var vals, e, post;
      vals, e, post, now, later, got := provider.Get(token, [key], clock);
      GetReplies(provider.cfg, provider.State(), token, [key], now, later);
      if e != None {
        return Err(e.value), now, later;
      }
      if vals.Length < 1 {
        return Err(ProviderReturnNotMatch), now, later;
      }
      var v := ValueOfSlot(vals[0]);
      r := Decode(v);
      if r.Ok? || v.Absent? {
        Remember(key, v);
      }
    }

    method Decode(v: Value) returns (r: Result<V>)
      requires provider.Valid()
      ensures provider.Valid() && r == Decoded(coder, v)
    {
      hide MemoryProvider.Valid;
      if v.Absent? {
        return Err(KeyNotExists);
      }
      match coder.decode(v.bytes) {
        case None => return Err(CoderFailed);
        case Some(x) => return Ok(x);
      }
    }

    method Remember(key: string, v: Value)
      requires provider.Valid()
      modifies this`keys
      ensures provider.Valid() && keys == old(keys)[key := v]
    {
      hide Index.Linked;
      keys := keys[key := v];
    }

    /** Delete, under the token it is given. The cache is left alone, and keeps agreeing with the store exactly when the
        call fails, or names another token, or deletes nothing that is cached as present. */
    method Delete(tok: string, deleted: seq<string>, clock: Clock)
      returns (e: Option<Error>, ghost now: int, ghost later: int)
      requires provider.Valid()
      modifies provider, provider.lru, provider.Bufs(), clock
      ensures provider.Valid() && old(clock.now) <= now <= later <= clock.now
      ensures Store.LazyStep(provider.cfg, old(provider.State()), Store.Delete(tok, deleted), now, later)
           == Store.Outcome(provider.State(), Store.ReplyOf(e))
      ensures old(Coherent()) ==>
        (Coherent() <==> e.Some? || tok != token || forall k :: k in keys && k in deleted ==> keys[k] == Absent)
    {
      hide MemoryProvider.Valid, Store.LazyStep, CoherentWith;
      ghost var s := provider.sessions;
      NeverStored();
      e, now, later := provider.Delete(tok, deleted, clock);
      NeverStored();
      ClosedFails(old(provider.State()), provider.State(), tok, deleted, now, later, e);
      if provider.State().Open? && old(Coherent()) {
        DeleteAgreesIff(provider.cfg, keys, s, provider.sessions, token, tok, deleted, now, later, e);
      }
    }

    lemma ClosedFails(before: Store.State, after: Store.State, tok: string, deleted: seq<string>, now: int, later: int,
                      e: Option<Error>)
      requires Store.LazyStep(provider.cfg, before, Store.Delete(tok, deleted), now, later)
            == Store.Outcome(after, Store.ReplyOf(e))
      ensures after.Open? <==> before.Open?
      ensures after.Closed? ==> e.Some?
    {
    }
  }
}
