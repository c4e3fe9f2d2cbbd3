/**
 The client's cache of prepared statements (pgz/stmtcache.go).
*/
module StmtCache {
  import opened Bytes
  import opened Protocol

  /** The cache's fields; a cached statement is known by its server-side name. */
  datatype View = View(byKey: map<Sql, Name>, closed: seq<Name>, seqNo: nat)

  // ---- Names ----------------------------------------------------------------------

  function Digit36(d: nat): (c: char)
    requires d < 36
  {
    if d < 10 then '0' + d as char else 'a' + (d - 10) as char
  }

  /** strconv.AppendUint in base 36. */
  function Base36(n: nat): (s: string)
    ensures |s| > 0
  {
    if n < 36 then [Digit36(n)] else Base36(n / 36) + [Digit36(n % 36)]
  }

  function NameOf(n: nat): Name { "s_" + Base36(n) }

  lemma {:induction false} Base36Injective(a: nat, b: nat)
    requires Base36(a) == Base36(b)
    ensures a == b
  {
    var s := Base36(a);
    assert s[|s| - 1] == Digit36(a % 36) == Digit36(b % 36);
    if a >= 36 && b >= 36 {
      assert s[..|s| - 1] == Base36(a / 36) == Base36(b / 36);
      Base36Injective(a / 36, b / 36);
    }
  }

  /** Different sequence numbers never give the same statement name. */
  lemma NamesDistinct(a: nat, b: nat)
    requires NameOf(a) == NameOf(b)
    ensures a == b
  {
    assert NameOf(a)[2..] == Base36(a) && NameOf(b)[2..] == Base36(b);
    Base36Injective(a, b);
  }

  // ---- The operations ----------------------------------------------------------------

  /** `put`, given the key it evicts, if any. */
  function PutView(v: View, sql: Sql, name: Name, victim: Option<Sql>): View
  {
    var w := if victim.Some? && victim.value in v.byKey
             then v.(closed := v.closed + [v.byKey[victim.value]], byKey := v.byKey - {victim.value})
             else v;
    w.(byKey := w.byKey[sql := name])
  }

  function InvalidateView(v: View, sql: Sql): View
  {
    if sql in v.byKey then v.(closed := v.closed + [v.byKey[sql]], byKey := v.byKey - {sql}) else v
  }

  class StmtCache {
    const max: nat
    var byKey: map<Sql, Name>
    var closed: seq<Name>
    var seqNo: nat

    function Contents(): View
      reads this
    {
      View(byKey, closed, seqNo)
    }

    predicate Valid()
      reads this
    {
      0 < max && |byKey| <= max
    }

    constructor (max: int)
      ensures Valid() && Contents() == View(map[], [], 0)
      ensures this.max == if max <= 0 then 64 else max
    {
      this.max := if max <= 0 then 64 else max;
      byKey, closed, seqNo := map[], [], 0;
    }

    method Get(sql: Sql) returns (r: Option<Name>)
      ensures r == if sql in byKey then Some(byKey[sql]) else None
    {
      r := if sql in byKey then Some(byKey[sql]) else None;
    }

    /** At capacity some entry, any entry, makes room; its name is queued for Close. */
    method Put(sql: Sql, name: Name) returns (ghost victim: Option<Sql>)
      requires Valid()
      modifies this
      ensures Valid()
      ensures Contents() == PutView(old(Contents()), sql, name, victim)
      ensures victim.Some? <==> |old(byKey)| >= max
      ensures victim.Some? ==> victim.value in old(byKey)
    {
      victim := None;
      if |byKey| >= max {
        assert byKey.Keys != {};
        var k :| k in byKey;
        closed := closed + [byKey[k]];
        RemoveOne(byKey, k);
        byKey := byKey - {k};
        victim := Some(k);
      }
      AddOne(byKey, sql, name);
      byKey := byKey[sql := name];
    }

    method TakePendingClose() returns (out: seq<Name>)
      modifies `closed
      ensures out == old(closed) && closed == []
    {
      out := closed;
      closed := [];
    }

    method NextName() returns (name: Name)
      modifies `seqNo
      ensures seqNo == old(seqNo) + 1 && name == NameOf(seqNo)
    {
      seqNo := seqNo + 1;
      name := NameOf(seqNo);
    }

    method Invalidate(sql: Sql)
      requires Valid()
      modifies this
      ensures Valid() && Contents() == InvalidateView(old(Contents()), sql)
    {
      if sql in byKey {
        closed := closed + [byKey[sql]];
        RemoveOne(byKey, sql);
        byKey := byKey - {sql};
      }
    }
  }

  lemma RemoveOne(m: map<Sql, Name>, k: Sql)
    requires k in m
    ensures |m - {k}| == |m| - 1
  {
    assert (m - {k}).Keys == m.Keys - {k};
  }

  lemma AddOne(m: map<Sql, Name>, k: Sql, v: Name)
    ensures |m[k := v]| <= |m| + 1
  {
    assert m[k := v].Keys == m.Keys + {k};
  }

  // ---- What the cache promises about names ----------------------------------------------

  /** Names handed out so far. */
  predicate Issued(v: View, name: Name) { exists k :: 1 <= k <= v.seqNo && name == NameOf(k) }

  /**
   Every cached or queued name was handed out, no two entries share one, and a name queued
   for Close is neither queued twice nor still in use.
  */
  ghost predicate CacheInv(v: View)
  {
    && (forall sql :: sql in v.byKey ==> Issued(v, v.byKey[sql]) && v.byKey[sql] !in v.closed)
    && (forall a, b :: a in v.byKey && b in v.byKey && v.byKey[a] == v.byKey[b] ==> a == b)
    && (forall i :: 0 <= i < |v.closed| ==> Issued(v, v.closed[i]))
    && (forall i, j :: 0 <= i < j < |v.closed| ==> v.closed[i] != v.closed[j])
  }

  lemma EvictKeepsCacheInv(v: View, key: Sql)
    requires CacheInv(v) && key in v.byKey
    ensures CacheInv(v.(closed := v.closed + [v.byKey[key]], byKey := v.byKey - {key}))
  {
  }

  lemma PutKeepsCacheInv(v: View, sql: Sql, name: Name, victim: Option<Sql>)
    requires CacheInv(v) && Issued(v, name)
    requires name !in v.closed && forall key :: key in v.byKey ==> v.byKey[key] != name
    ensures CacheInv(PutView(v, sql, name, victim))
  {
    var w := if victim.Some? && victim.value in v.byKey
             then v.(closed := v.closed + [v.byKey[victim.value]], byKey := v.byKey - {victim.value})
             else v;
    if victim.Some? && victim.value in v.byKey {
      EvictKeepsCacheInv(v, victim.value);
    }
    StoreKeepsCacheInv(w, sql, name);
  }

  lemma StoreKeepsCacheInv(w: View, sql: Sql, name: Name)
    requires CacheInv(w) && Issued(w, name)
    requires name !in w.closed && forall key :: key in w.byKey ==> w.byKey[key] != name
    ensures CacheInv(w.(byKey := w.byKey[sql := name]))
  {
    var u := w.(byKey := w.byKey[sql := name]);
    assert forall n :: Issued(w, n) <==> Issued(u, n);
  }
}
