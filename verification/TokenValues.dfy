/** A session as the memory store holds it: one mutable record per list element, owning its byte arrays. */
module TokenValues {
  import opened Basics
  import opened Sessions
  import opened Clocks

  datatype PairBytes = PairBytes(key: string, value: array?<byte>)

  /** One entry of Get's answer. */
  datatype Slot = Slot(present: bool, bytes: array?<byte>)

  function BytesOf(a: array?<byte>): Bytes
    reads a
  {
    if a == null then [] else a[..]
  }

  ghost function PairsOf(pairs: seq<PairBytes>): (r: seq<Pair>)
    reads set i | 0 <= i < |pairs| :: pairs[i].value
    ensures |r| == |pairs|
    ensures forall i :: 0 <= i < |pairs| ==> r[i] == Pair(pairs[i].key, BytesOf(pairs[i].value))
  {
    seq(|pairs|, i requires 0 <= i < |pairs| reads (if 0 <= i < |pairs| then {pairs[i].value} else {}) =>
      Pair(pairs[i].key, BytesOf(pairs[i].value)))
  }

  function ValueOfSlot(s: Slot): Value
    reads s.bytes
  {
    if s.present then Present(BytesOf(s.bytes)) else Absent
  }

  method CopyOf(v: array<byte>) returns (b: array<byte>)
    ensures fresh(b) && b[..] == v[..]
  {
    b := new byte[v.Length](_ => 0);
    for i := 0 to v.Length
      modifies b
      invariant b[..i] == v[..i]
    {
      b[i] := v[i];
    }
    assert b[..] == v[..];
  }

  class TokenValue {
    var id: string
    var access: string
    var refresh: string
    var accessDeadline: int
    var refreshDeadline: int
    var data: map<string, array?<byte>>

    constructor (id: string, access: string, refresh: string, accessDeadline: int, refreshDeadline: int)
      ensures this.id == id && this.access == access && this.refresh == refresh
      ensures this.accessDeadline == accessDeadline && this.refreshDeadline == refreshDeadline
      ensures data == map[] && contents == map[]
    {
      this.id, this.access, this.refresh := id, access, refresh;
      this.accessDeadline, this.refreshDeadline := accessDeadline, refreshDeadline;
      data, contents := map[], map[];
    }

    /** The bytes behind `data`, as values. */
    ghost var contents: map<string, Bytes>

    /** The byte arrays this session keeps. */
    ghost function Owned(): set<array?<byte>>
      reads this
    {
      set k | k in data :: data[k]
    }

    /** The arrays hold the contents. */
    ghost predicate Holds()
      reads this, Owned()
    {
      data.Keys == contents.Keys && forall k :: k in data ==> BytesOf(data[k]) == contents[k]
    }

    /** The session this record stands for. */
    ghost function Model(): Session
      reads this
    {
      Session(id, access, refresh, accessDeadline, refreshDeadline, contents)
    }

    method Refresh(access: string, refresh: string, accessDuration: int, refreshDuration: int, clock: Clock)
      returns (ghost at: int)
      modifies this, clock
      ensures old(clock.now) <= at == clock.now
      ensures data == old(data) && contents == old(contents)
      ensures Model() == Rotate(Config(accessDuration, refreshDuration, 0), old(Model()), access, refresh, at)
    {
      var t := clock.Now();
      at := t;
      this.access := access;
      this.refresh := refresh;
      accessDeadline := t + accessDuration;
      refreshDeadline := t + refreshDuration;
    }

    /** Stores a copy: the caller's array is read, never kept. */
    method SetCopy(k: string, v: array?<byte>)
      requires Holds()
      modifies this`data, this`contents
      ensures Holds()
      ensures k in data && data == old(data)[k := data[k]]
      ensures data[k] == null <==> v == null
      ensures data[k] != null ==> fresh(data[k])
      ensures contents == old(contents)[k := BytesOf(v)]
    {
      contents := contents[k := BytesOf(v)];
      if v == null {
        data := data[k := null];
      } else {
        var val := CopyOf(v);
        data := data[k := val];
      }
    }

    method IsExpired(clock: Clock) returns (b: bool)
      modifies clock
      ensures old(clock.now) <= clock.now
      ensures b <==> Model().Expired(clock.now)
    {
      var t := clock.Now();
      b := accessDeadline <= t;
    }

    method IsDeleted(clock: Clock) returns (b: bool)
      modifies clock
      ensures old(clock.now) <= clock.now
      ensures b <==> Model().Dead(clock.now)
    {
      var t := clock.Now();
      b := refreshDeadline <= t;
    }

    /** Copies out one entry per key: the arrays handed back are fresh, so the caller may overwrite them. */
    method CopyKeys(keys: seq<string>) returns (vals: array<Slot>)
      requires Holds()
      ensures fresh(vals) && vals.Length == |keys|
      ensures forall i :: 0 <= i < |keys| && vals[i].bytes != null ==> fresh(vals[i].bytes)
      ensures forall i :: 0 <= i < |keys| ==> ValueOfSlot(vals[i]) == ValueOf(contents, keys[i])
    {
      vals := new Slot[|keys|](_ => Slot(false, null));
      for i := 0 to |keys|
        modifies vals
        invariant forall j :: i <= j < |keys| ==> vals[j] == Slot(false, null)
        invariant forall j :: 0 <= j < i && vals[j].bytes != null ==> fresh(vals[j].bytes)
        invariant forall j :: 0 <= j < i ==> ValueOfSlot(vals[j]) == ValueOf(contents, keys[j])
      {
        var k := keys[i];
        if k in data {
          var v := data[k];
          if v == null {
            vals[i] := Slot(true, null);
          } else {
            var b := CopyOf(v);
            vals[i] := Slot(true, b);
          }
        }
      }
    }
  }

  /** Stamps a new session with the clock's reading. */
  method NewTokenValue(id: string, access: string, refresh: string, accessDuration: int, refreshDuration: int,
                       clock: Clock)
    returns (t: TokenValue, ghost at: int)
    modifies clock
    ensures fresh(t) && old(clock.now) <= at == clock.now
    ensures t.data == map[] && t.Holds()
    ensures t.Model() == Make(Config(accessDuration, refreshDuration, 0), id, access, refresh, [], at)
  {
    var now := clock.Now();
    at := now;
    t := new TokenValue(id, access, refresh, now + accessDuration, now + refreshDuration);
  }

  /** The loop of Create and Put: each pair in turn, so the last one for a key stays. */
  method SetPairs(t: TokenValue, pairs: seq<PairBytes>)
    requires t.Holds()
    modifies t`data, t`contents
    ensures t.Holds() && t.contents == PutAll(old(t.contents), PairsOf(pairs))
    ensures forall a :: a in t.Owned() && a !in old(t.Owned()) && a != null ==> fresh(a)
  {
    ghost var model := PairsOf(pairs);
    ghost var was := t.contents;
    for i := 0 to |pairs|
      invariant t.Holds() && PairsOf(pairs) == model
      invariant t.contents == PutAll(was, model[..i])
      invariant forall a :: a in t.Owned() && a !in old(t.Owned()) && a != null ==> fresh(a)
    {
      t.SetCopy(pairs[i].key, pairs[i].value);
      PutAllSnoc(was, model[..i], model[i]);
      assert model[..i + 1] == model[..i] + [model[i]];
    }
    assert model[..|pairs|] == model;
  }

  /** The loop of Delete. */
  method DeleteKeys(t: TokenValue, keys: seq<string>)
    requires t.Holds()
    modifies t`data, t`contents
    ensures t.Holds() && t.contents == DeleteAll(old(t.contents), keys)
    ensures t.Owned() <= old(t.Owned())
  {
    hide DeleteAll;
    NoneDeleted(t.contents);
    for i := 0 to |keys|
      invariant t.Holds() && t.Owned() <= old(t.Owned())
      invariant t.contents == DeleteAll(old(t.contents), keys[..i])
    {
      DeleteAllSnoc(old(t.contents), keys[..i], keys[i]);
      assert keys[..i + 1] == keys[..i] + [keys[i]];
      t.data := t.data - {keys[i]};
      t.contents := t.contents - {keys[i]};
    }
    assert keys[..|keys|] == keys;
  }

  lemma NoneDeleted(data: map<string, Bytes>)
    ensures DeleteAll(data, []) == data
  {
  }

  /** What Create does before it takes the lock: stamp a record, see whether it is dead already, fill it. */
  method Prepare(cfg: Config, id: string, access: string, refresh: string, pairs: seq<PairBytes>, clock: Clock)
    returns (t: TokenValue, dead: bool, ghost stamp: int, ghost checked: int)
    modifies clock
    ensures fresh(t) && t.Holds() && forall a :: a in t.Owned() && a != null ==> fresh(a)
    ensures old(clock.now) <= stamp <= checked == clock.now
    ensures
      var x := Make(cfg, id, access, refresh, PairsOf(pairs), stamp);
      (dead <==> x.Dead(checked)) && (!dead ==> t.Model() == x)
  {
    t, stamp := NewTokenValue(id, access, refresh, cfg.access, cfg.refresh, clock);
    dead := t.IsDeleted(clock);
    checked := clock.now;
    if !dead {
      SetPairs(t, pairs);
    }
  }

  method ArrayOf(b: Bytes) returns (a: array<byte>)
    ensures fresh(a) && a[..] == b
  {
    a := new byte[|b|](i requires 0 <= i < |b| => b[i]);
  }

  /** A caller's pairs: each value in an array of its own. */
  method ToPairBytes(pairs: seq<Pair>) returns (r: seq<PairBytes>)
    ensures |r| == |pairs| && PairsOf(r) == pairs
    ensures forall i :: 0 <= i < |r| ==> r[i].value != null && fresh(r[i].value)
  {
    r := [];
    for i := 0 to |pairs|
      invariant |r| == i
      invariant forall j :: 0 <= j < i ==> r[j].key == pairs[j].key && r[j].value != null && fresh(r[j].value)
      invariant forall j :: 0 <= j < i ==> BytesOf(r[j].value) == pairs[j].value
    {
      var a := ArrayOf(pairs[i].value);
      r := r + [PairBytes(pairs[i].key, a)];
    }
  }
}
