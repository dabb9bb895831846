/**
 * sync/SessionHelper.java: turn the local snapshot and the server's
 * sessions into a batch of content-provider operations.
 *
 * Both maps are ImmutableMaps, so each is a sequence of (id, session)
 * entries with distinct ids, in iteration order.  Maps.difference splits
 * them the way Guava documents: entries only on the left and differing
 * entries in the left map's order, entries only on the right in the right
 * map's order.  Values are compared with Session.equals, which the class
 * does not override; the split takes the comparison as a parameter and the
 * helper passes reference equality.
 */
module SessionSync {
  import opened JavaLang
  import opened Sessions

  type Entries = seq<(string, Session)>

  function Keys(m: Entries): (ks: seq<string>)
    ensures |ks| == |m| && forall i :: 0 <= i < |m| ==> ks[i] == m[i].0
  {
    if |m| == 0 then [] else [m[0].0] + Keys(m[1..])
  }

  function Values(m: Entries): set<Session>
  {
    set i | 0 <= i < |m| :: m[i].1
  }

  /** The keys of an ImmutableMap are distinct. */
  predicate UniqueKeys(m: Entries)
  {
    forall i, j :: 0 <= i < j < |m| ==> m[i].0 != m[j].0
  }

  /** ScheduleDeserializer keys every session by its own id. */
  predicate KeyedById(m: Entries)
    reads Values(m)
  {
    forall i :: 0 <= i < |m| ==> m[i].1.id == Some(m[i].0)
  }

  /** Every session has a language: getLang().toString() would otherwise throw. */
  predicate HaveLanguage(m: Entries)
    reads Values(m)
  {
    forall i :: 0 <= i < |m| ==> m[i].1.lang.Some?
  }

  /** map.get(k). */
  function Get(m: Entries, k: string): (v: Option<Session>)
    ensures v.Some? <==> k in Keys(m)
    ensures v.Some? ==> (k, v.value) in m
  {
    if |m| == 0 then None
    else if m[0].0 == k then Some(m[0].1)
    else Get(m[1..], k)
  }

  lemma GetUnique(m: Entries, i: int)
    requires UniqueKeys(m) && 0 <= i < |m|
    ensures Get(m, m[i].0) == Some(m[i].1)
  {
    if i > 0 {
      assert UniqueKeys(m[1..]) by {
        forall a, b | 0 <= a < b < |m[1..]| ensures m[1..][a].0 != m[1..][b].0 {
          assert m[1..][a] == m[a + 1] && m[1..][b] == m[b + 1];
        }
      }
      GetUnique(m[1..], i - 1);
    }
  }

  // ---------------------------------------------------------------------
  // Maps.difference
  // ---------------------------------------------------------------------

  /** entriesOnlyOnLeft: local entries whose id the remote map lacks. */
  function OnlyOnLeft(local: Entries, remote: Entries): (r: Entries)
    ensures forall i :: 0 <= i < |r| ==> r[i] in local && r[i].0 !in Keys(remote)
    ensures forall j :: 0 <= j < |local| && local[j].0 !in Keys(remote) ==> local[j] in r
  {
    if |local| == 0 then []
    else (if local[0].0 in Keys(remote) then [] else [local[0]]) + OnlyOnLeft(local[1..], remote)
  }

  /** entriesOnlyOnRight: remote entries whose id the local map lacks. */
  function OnlyOnRight(local: Entries, remote: Entries): (r: Entries)
    ensures forall i :: 0 <= i < |r| ==> r[i] in remote && r[i].0 !in Keys(local)
    ensures forall j :: 0 <= j < |remote| && remote[j].0 !in Keys(local) ==> remote[j] in r
  {
    if |remote| == 0 then []
    else (if remote[0].0 in Keys(local) then [] else [remote[0]]) + OnlyOnRight(local, remote[1..])
  }

  /**
   * entriesDiffering, each paired with its right (remote) value: the local
   * entries whose id the remote map also holds under a value that `same`
   * does not equate with the local one.
   */
  function Differing(local: Entries, remote: Entries, same: (Session, Session) -> bool): (r: Entries)
    ensures forall i :: 0 <= i < |r| ==> Get(remote, r[i].0) == Some(r[i].1)
  {
    if |local| == 0 then []
    else
      var k := local[0].0;
      var here := if Get(remote, k).Some? && !same(local[0].1, Get(remote, k).value)
                  then [(k, Get(remote, k).value)] else [];
      here + Differing(local[1..], remote, same)
  }

  /** Object.equals as Session inherits it. */
  function Identity(a: Session, b: Session): bool
  {
    a == b
  }

  // ---------------------------------------------------------------------
  // Content-provider operations
  // ---------------------------------------------------------------------

  /** The ContentValues an update or insert carries (SESSION_ID aside). */
  datatype SessionValues = SessionValues(updated: int, title: Option<string>, day: int, startTime: int,
                                         endTime: int, hosts: Option<string>, lang: string,
                                         sessionAbstract: Option<string>)

  /**
   * newUpdate and newDelete select `session_id=?` with the id as the single
   * argument; newInsert carries session.getId() as SESSION_ID.
   */
  datatype Operation =
    | Update(selectionId: string, values: SessionValues)
    | Delete(selectionId: string)
    | Insert(sessionId: Option<string>, values: SessionValues)

  /** The values withValue writes for a session, stamped with UPDATED = now. */
  function ValuesOf(s: Session, now: int): (v: SessionValues)
    requires s.lang.Some?
    reads s
    ensures v.updated == now && v.lang == LanguageName(s.lang.value)
    ensures v.title == s.title && v.day == s.day && v.startTime == s.startTime && v.endTime == s.endTime
            && v.hosts == s.hosts && v.sessionAbstract == s.sessionAbstract
  {
    SessionValues(now, s.title, s.day, s.startTime, s.endTime, s.hosts, LanguageName(s.lang.value), s.sessionAbstract)
  }

  function UpdateOps(differing: Entries, now: int): (ops: seq<Operation>)
    requires HaveLanguage(differing)
    reads Values(differing)
    ensures |ops| == |differing|
    ensures forall i :: 0 <= i < |ops| ==> ops[i] == Update(differing[i].0, ValuesOf(differing[i].1, now))
  {
    if |differing| == 0 then []
    else
      var last := differing[|differing| - 1];
      UpdateOps(differing[..|differing| - 1], now) + [Update(last.0, ValuesOf(last.1, now))]
  }

  function DeleteOps(stale: Entries): (ops: seq<Operation>)
    ensures |ops| == |stale|
    ensures forall i :: 0 <= i < |ops| ==> ops[i] == Delete(stale[i].0)
  {
    if |stale| == 0 then [] else DeleteOps(stale[..|stale| - 1]) + [Delete(stale[|stale| - 1].0)]
  }

  function InsertOps(added: Entries, now: int): (ops: seq<Operation>)
    requires HaveLanguage(added)
    reads Values(added)
    ensures |ops| == |added|
    ensures forall i :: 0 <= i < |ops| ==> ops[i] == Insert(added[i].1.id, ValuesOf(added[i].1, now))
  {
    if |added| == 0 then []
    else
      var last := added[|added| - 1];
      InsertOps(added[..|added| - 1], now) + [Insert(last.1.id, ValuesOf(last.1, now))]
  }

  /** synchronizeSessions on the two snapshots: nothing at all when the server sent no session. */
  function Batch(local: Entries, remote: Entries, same: (Session, Session) -> bool, now: int): (ops: seq<Operation>)
    requires HaveLanguage(remote)
    reads Values(local), Values(remote)
  {
    if |remote| == 0 then []
    else
      DifferingHasLanguage(local, remote, same);
      AddedHaveLanguage(local, remote);
      UpdateOps(Differing(local, remote, same), now) + DeleteOps(OnlyOnLeft(local, remote))
         + InsertOps(OnlyOnRight(local, remote), now)
  }

  /** The id an operation is about. */
  function OpId(op: Operation): Option<string>
  {
    match op
    case Update(k, _) => Some(k)
    case Delete(k) => Some(k)
    case Insert(k, _) => k
  }

  /** 0 for updates, 1 for deletes, 2 for inserts. */
  function Rank(op: Operation): nat
  {
    match op
    case Update(_, _) => 0
    case Delete(_) => 1
    case Insert(_, _) => 2
  }

  lemma UniqueTail(m: Entries)
    requires UniqueKeys(m) && |m| > 0
    ensures UniqueKeys(m[1..]) && m[0].0 !in Keys(m[1..])
  {
    forall a, b | 0 <= a < b < |m| - 1
      ensures m[1..][a].0 != m[1..][b].0
    {
      assert m[1..][a] == m[a + 1] && m[1..][b] == m[b + 1];
    }
    forall j | 0 <= j < |m| - 1
      ensures Keys(m[1..])[j] != m[0].0
    {
      assert m[1..][j] == m[j + 1];
    }
  }

  /** In a map with distinct keys, get finds the one entry under the key. */
  lemma GetEntry(m: Entries, k: string, v: Session)
    requires UniqueKeys(m) && (k, v) in m
    ensures Get(m, k) == Some(v)
  {
    var j :| 0 <= j < |m| && m[j] == (k, v);
    GetUnique(m, j);
  }

  lemma DifferingHasLanguage(local: Entries, remote: Entries, same: (Session, Session) -> bool)
    requires HaveLanguage(remote)
    ensures HaveLanguage(Differing(local, remote, same))
  {
    var r := Differing(local, remote, same);
    forall i | 0 <= i < |r|
      ensures r[i].1.lang.Some?
    {
      assert (r[i].0, r[i].1) in remote;
      var j :| 0 <= j < |remote| && remote[j] == (r[i].0, r[i].1);
    }
  }

  lemma AddedHaveLanguage(local: Entries, remote: Entries)
    requires HaveLanguage(remote)
    ensures HaveLanguage(OnlyOnRight(local, remote))
  {
    var r := OnlyOnRight(local, remote);
    forall i | 0 <= i < |r|
      ensures r[i].1.lang.Some?
    {
      var j :| 0 <= j < |remote| && remote[j] == r[i];
    }
  }

  /**
   * An id is paired with remote value v among the differing entries
   * exactly when both maps hold the id, the remote one under v, and the
   * local value is not `same` as v.
   */
  lemma {:induction false} DifferingMembers(local: Entries, remote: Entries, same: (Session, Session) -> bool,
                                            k: string, v: Session)
    requires UniqueKeys(local)
    ensures (k, v) in Differing(local, remote, same) <==>
            Get(local, k).Some? && Get(remote, k) == Some(v) && !same(Get(local, k).value, v)
  {
    if |local| > 0 {
      UniqueTail(local);
      var key := local[0].0;
      var here := if Get(remote, key).Some? && !same(local[0].1, Get(remote, key).value)
                  then [(key, Get(remote, key).value)] else [];
      assert Differing(local, remote, same) == here + Differing(local[1..], remote, same);
      DifferingMembers(local[1..], remote, same, k, v);
    }
  }

  lemma DeleteOpsMembers(stale: Entries, k: string)
    ensures Delete(k) in DeleteOps(stale) <==> k in Keys(stale)
  {
    var d := DeleteOps(stale);
    if Delete(k) in d {
      var i :| 0 <= i < |d| && d[i] == Delete(k);
      assert Keys(stale)[i] == k;
    }
    if k in Keys(stale) {
      var i :| 0 <= i < |stale| && Keys(stale)[i] == k;
      assert d[i] == Delete(k);
    }
  }

  lemma OnlyOnLeftKeys(local: Entries, remote: Entries, k: string)
    ensures k in Keys(OnlyOnLeft(local, remote)) <==> k in Keys(local) && k !in Keys(remote)
  {
    if k in Keys(OnlyOnLeft(local, remote)) {
      StaleKeyIsLocal(local, remote, k);
    }
    if k in Keys(local) && k !in Keys(remote) {
      LocalKeyIsStale(local, remote, k);
    }
  }

  lemma StaleKeyIsLocal(local: Entries, remote: Entries, k: string)
    requires k in Keys(OnlyOnLeft(local, remote))
    ensures k in Keys(local) && k !in Keys(remote)
  {
    var r := OnlyOnLeft(local, remote);
    var i :| 0 <= i < |r| && Keys(r)[i] == k;
    var j :| 0 <= j < |local| && local[j] == r[i];
    assert Keys(local)[j] == k;
  }

  lemma LocalKeyIsStale(local: Entries, remote: Entries, k: string)
    requires k in Keys(local) && k !in Keys(remote)
    ensures k in Keys(OnlyOnLeft(local, remote))
  {
    var r := OnlyOnLeft(local, remote);
    var j :| 0 <= j < |local| && Keys(local)[j] == k;
    var i :| 0 <= i < |r| && r[i] == local[j];
    assert Keys(r)[i] == k;
  }

  lemma AddedKeyedById(local: Entries, remote: Entries)
    requires KeyedById(remote)
    ensures KeyedById(OnlyOnRight(local, remote))
  {
    var r := OnlyOnRight(local, remote);
    forall i | 0 <= i < |r|
      ensures r[i].1.id == Some(r[i].0)
    {
      var j :| 0 <= j < |remote| && remote[j] == r[i];
    }
  }

  lemma UpdateOpsMembers(diff: Entries, now: int, k: string, v: SessionValues)
    requires HaveLanguage(diff)
    ensures Update(k, v) in UpdateOps(diff, now) <==>
            exists i :: 0 <= i < |diff| && diff[i].0 == k && v == ValuesOf(diff[i].1, now)
  {
    var u := UpdateOps(diff, now);
    if Update(k, v) in u {
      var i :| 0 <= i < |u| && u[i] == Update(k, v);
      assert diff[i].0 == k && v == ValuesOf(diff[i].1, now);
    }
  }

  lemma InsertOpsMembers(added: Entries, now: int, k: string, v: SessionValues)
    requires HaveLanguage(added) && KeyedById(added)
    ensures Insert(Some(k), v) in InsertOps(added, now) <==>
            exists i :: 0 <= i < |added| && added[i].0 == k && v == ValuesOf(added[i].1, now)
  {
    var n := InsertOps(added, now);
    if Insert(Some(k), v) in n {
      var i :| 0 <= i < |n| && n[i] == Insert(Some(k), v);
      assert added[i].1.id == Some(added[i].0);
      assert added[i].0 == k && v == ValuesOf(added[i].1, now);
    }
    if exists i :: 0 <= i < |added| && added[i].0 == k && v == ValuesOf(added[i].1, now) {
      var i :| 0 <= i < |added| && added[i].0 == k && v == ValuesOf(added[i].1, now);
      assert added[i].1.id == Some(k);
      assert n[i] == Insert(Some(k), v);
    }
  }

  /** Each operation of a non-empty batch comes from the part of the split its kind belongs to. */
  lemma BatchParts(local: Entries, remote: Entries, same: (Session, Session) -> bool, now: int, op: Operation)
    requires |remote| > 0 && HaveLanguage(remote)
    requires HaveLanguage(Differing(local, remote, same)) && HaveLanguage(OnlyOnRight(local, remote))
    ensures op in Batch(local, remote, same, now) <==>
              (op.Update? && op in UpdateOps(Differing(local, remote, same), now))
              || (op.Delete? && op in DeleteOps(OnlyOnLeft(local, remote)))
              || (op.Insert? && op in InsertOps(OnlyOnRight(local, remote), now))
  {
    var u := UpdateOps(Differing(local, remote, same), now);
    var d := DeleteOps(OnlyOnLeft(local, remote));
    var n := InsertOps(OnlyOnRight(local, remote), now);
    assert Batch(local, remote, same, now) == u + d + n;
    RankedMember(u, d, n, op);
  }

  /** In a concatenation of updates, deletes and inserts, an operation's kind says which part holds it. */
  lemma RankedMember(u: seq<Operation>, d: seq<Operation>, n: seq<Operation>, op: Operation)
    requires forall i :: 0 <= i < |u| ==> Rank(u[i]) == 0
    requires forall i :: 0 <= i < |d| ==> Rank(d[i]) == 1
    requires forall i :: 0 <= i < |n| ==> Rank(n[i]) == 2
    ensures op in u + d + n <==> (op.Update? && op in u) || (op.Delete? && op in d) || (op.Insert? && op in n)
  {
    if op in u {
      var i :| 0 <= i < |u| && u[i] == op;
    }
    if op in d {
      var i :| 0 <= i < |d| && d[i] == op;
    }
    if op in n {
      var i :| 0 <= i < |n| && n[i] == op;
    }
  }

  /** An empty reply yields an empty batch, so the local table is never wiped. */
  lemma EmptyReplyKeepsLocal(local: Entries, same: (Session, Session) -> bool, now: int)
    ensures Batch(local, [], same, now) == []
  {
  }

  lemma RankedConcat(u: seq<Operation>, d: seq<Operation>, n: seq<Operation>)
    requires forall i :: 0 <= i < |u| ==> Rank(u[i]) == 0
    requires forall i :: 0 <= i < |d| ==> Rank(d[i]) == 1
    requires forall i :: 0 <= i < |n| ==> Rank(n[i]) == 2
    ensures forall i, j :: 0 <= i < j < |u + d + n| ==> Rank((u + d + n)[i]) <= Rank((u + d + n)[j])
  {
    var b := u + d + n;
    forall i | 0 <= i < |b|
      ensures Rank(b[i]) == if i < |u| then 0 else if i < |u| + |d| then 1 else 2
    {
      if i < |u| {
        assert b[i] == u[i];
      } else if i < |u| + |d| {
        assert b[i] == d[i - |u|];
      } else {
        assert b[i] == n[i - |u| - |d|];
      }
    }
  }

  /** The batch holds every update, then every delete, then every insert. */
  lemma BatchOrder(local: Entries, remote: Entries, same: (Session, Session) -> bool, now: int)
    requires HaveLanguage(remote)
    ensures var b := Batch(local, remote, same, now);
            forall i, j :: 0 <= i < j < |b| ==> Rank(b[i]) <= Rank(b[j])
  {
    if |remote| > 0 {
      DifferingHasLanguage(local, remote, same);
      AddedHaveLanguage(local, remote);
      var u := UpdateOps(Differing(local, remote, same), now);
      var d := DeleteOps(OnlyOnLeft(local, remote));
      var n := InsertOps(OnlyOnRight(local, remote), now);
      assert Batch(local, remote, same, now) == u + d + n;
      RankedConcat(u, d, n);
    }
  }

  /** There is a delete for id k exactly when k is only in the local snapshot. */
  lemma DeletesExactlyStale(local: Entries, remote: Entries, same: (Session, Session) -> bool, now: int, k: string)
    requires |remote| > 0 && HaveLanguage(remote)
    ensures Delete(k) in Batch(local, remote, same, now) <==> k in Keys(local) && k !in Keys(remote)
  {
    DifferingHasLanguage(local, remote, same);
    AddedHaveLanguage(local, remote);
    BatchParts(local, remote, same, now, Delete(k));
    DeleteOpsMembers(OnlyOnLeft(local, remote), k);
    OnlyOnLeftKeys(local, remote, k);
  }

  /** Every insert in the batch is for an id only the remote map holds, and carries that remote session's fields. */
  lemma InsertsOnlyNew(local: Entries, remote: Entries, same: (Session, Session) -> bool, now: int,
                       k: string, v: SessionValues)
    requires |remote| > 0 && HaveLanguage(remote) && KeyedById(remote) && UniqueKeys(remote)
    requires Insert(Some(k), v) in Batch(local, remote, same, now)
    ensures k in Keys(remote) && k !in Keys(local)
    ensures Get(remote, k).Some? && v == ValuesOf(Get(remote, k).value, now)
  {
    var added := OnlyOnRight(local, remote);
    InsertInBatch(local, remote, same, now, k, v);
    var i :| 0 <= i < |added| && added[i].0 == k && v == ValuesOf(added[i].1, now);
    var j :| 0 <= j < |remote| && remote[j] == added[i];
    assert Keys(remote)[j] == k;
    GetUnique(remote, j);
  }

  /** An insert in the batch is an entry of OnlyOnRight, with its values. */
  lemma InsertInBatch(local: Entries, remote: Entries, same: (Session, Session) -> bool, now: int,
                      k: string, v: SessionValues)
    requires |remote| > 0 && HaveLanguage(remote) && KeyedById(remote)
    requires Insert(Some(k), v) in Batch(local, remote, same, now)
    ensures HaveLanguage(OnlyOnRight(local, remote))
    ensures exists i :: 0 <= i < |OnlyOnRight(local, remote)| && OnlyOnRight(local, remote)[i].0 == k
                        && v == ValuesOf(OnlyOnRight(local, remote)[i].1, now)
  {
    DifferingHasLanguage(local, remote, same);
    AddedHaveLanguage(local, remote);
    AddedKeyedById(local, remote);
    BatchParts(local, remote, same, now, Insert(Some(k), v));
    InsertOpsMembers(OnlyOnRight(local, remote), now, k, v);
  }

  /** Every entry of the remote map whose id the local snapshot lacks gets an insert carrying its fields. */
  lemma InsertsEveryNew(local: Entries, remote: Entries, same: (Session, Session) -> bool, now: int, j: int)
    requires |remote| > 0 && HaveLanguage(remote) && KeyedById(remote)
    requires 0 <= j < |remote| && remote[j].0 !in Keys(local)
    ensures Insert(Some(remote[j].0), ValuesOf(remote[j].1, now)) in Batch(local, remote, same, now)
  {
    var added := OnlyOnRight(local, remote);
    DifferingHasLanguage(local, remote, same);
    AddedHaveLanguage(local, remote);
    AddedKeyedById(local, remote);
    assert remote[j] in added;
    var i :| 0 <= i < |added| && added[i] == remote[j];
    var v := ValuesOf(remote[j].1, now);
    assert Insert(Some(remote[j].0), v) in InsertOps(added, now) by {
      InsertOpsMembers(added, now, remote[j].0, v);
    }
    BatchParts(local, remote, same, now, Insert(Some(remote[j].0), v));
  }

  /** The updates in the batch are the entries of Differing, with their values. */
  lemma UpdateInBatch(local: Entries, remote: Entries, same: (Session, Session) -> bool, now: int, k: string, v: SessionValues)
    requires |remote| > 0 && HaveLanguage(remote)
    ensures HaveLanguage(Differing(local, remote, same))
    ensures Update(k, v) in Batch(local, remote, same, now) <==>
              exists i :: 0 <= i < |Differing(local, remote, same)| && Differing(local, remote, same)[i].0 == k
                          && v == ValuesOf(Differing(local, remote, same)[i].1, now)
  {
    DifferingHasLanguage(local, remote, same);
    AddedHaveLanguage(local, remote);
    BatchParts(local, remote, same, now, Update(k, v));
    UpdateOpsMembers(Differing(local, remote, same), now, k, v);
  }

  /** An update in the batch is for a differing id and carries the remote fields. */
  lemma UpdatesOnlyDiffering(local: Entries, remote: Entries, same: (Session, Session) -> bool, now: int, k: string, v: SessionValues)
    requires |remote| > 0 && HaveLanguage(remote) && UniqueKeys(local)
    requires Update(k, v) in Batch(local, remote, same, now)
    ensures Get(local, k).Some? && Get(remote, k).Some? && !same(Get(local, k).value, Get(remote, k).value)
    ensures v == ValuesOf(Get(remote, k).value, now)
  {
    var diff := Differing(local, remote, same);
    UpdateInBatch(local, remote, same, now, k, v);
    var i :| 0 <= i < |diff| && diff[i].0 == k && v == ValuesOf(diff[i].1, now);
    assert diff[i] in diff;
    DifferingMembers(local, remote, same, k, diff[i].1);
  }

  /** A differing id gets an update. */
  lemma UpdatesEveryDiffering(local: Entries, remote: Entries, same: (Session, Session) -> bool, now: int, k: string)
    requires |remote| > 0 && HaveLanguage(remote) && UniqueKeys(local)
    requires Get(local, k).Some? && Get(remote, k).Some? && !same(Get(local, k).value, Get(remote, k).value)
    ensures Update(k, ValuesOf(Get(remote, k).value, now)) in Batch(local, remote, same, now)
  {
    var diff := Differing(local, remote, same);
    var r := Get(remote, k).value;
    DifferingMembers(local, remote, same, k, r);
    var i :| 0 <= i < |diff| && diff[i] == (k, r);
    UpdateInBatch(local, remote, same, now, k, ValuesOf(r, now));
  }

  /**
   * There is an update for id k exactly when both snapshots hold k under
   * values `same` does not equate, and it carries the remote session's
   * fields.
   */
  lemma UpdatesExactlyDiffering(local: Entries, remote: Entries, same: (Session, Session) -> bool, now: int, k: string)
    requires |remote| > 0 && HaveLanguage(remote) && UniqueKeys(local)
    ensures (exists v :: Update(k, v) in Batch(local, remote, same, now))
            <==> Get(local, k).Some? && Get(remote, k).Some? && !same(Get(local, k).value, Get(remote, k).value)
    ensures forall v :: Update(k, v) in Batch(local, remote, same, now) ==>
              Get(remote, k).Some? && v == ValuesOf(Get(remote, k).value, now)
  {
    forall v | Update(k, v) in Batch(local, remote, same, now)
      ensures Get(local, k).Some? && Get(remote, k).Some? && !same(Get(local, k).value, Get(remote, k).value)
              && v == ValuesOf(Get(remote, k).value, now)
    {
      UpdatesOnlyDiffering(local, remote, same, now, k, v);
    }
    if Get(local, k).Some? && Get(remote, k).Some? && !same(Get(local, k).value, Get(remote, k).value) {
      UpdatesEveryDiffering(local, remote, same, now, k);
    }
  }

  /**
   * With the shipped Session, whose equals is identity, every id present on
   * both sides differs once the two snapshots share no object - as they
   * never do, one being read from the cursor and the other from the JSON.
   */
  lemma IdentityUpdatesEveryCommonId(local: Entries, remote: Entries, now: int, k: string)
    requires |remote| > 0 && HaveLanguage(remote) && UniqueKeys(local)
    requires Values(local) !! Values(remote)
    requires k in Keys(local) && k in Keys(remote)
    ensures exists v :: Update(k, v) in Batch(local, remote, Identity, now)
  {
    var l := Get(local, k).value;
    var r := Get(remote, k).value;
    var i :| 0 <= i < |local| && local[i] == (k, l);
    var j :| 0 <= j < |remote| && remote[j] == (k, r);
    assert l in Values(local) && r in Values(remote);
    UpdatesExactlyDiffering(local, remote, Identity, now, k);
  }

  // ---------------------------------------------------------------------
  // One operation per id
  // ---------------------------------------------------------------------

  /** No two operations of a batch are about the same id. */
  predicate OpIdsDistinct(ops: seq<Operation>)
  {
    forall i, j :: 0 <= i < j < |ops| ==> OpId(ops[i]) != OpId(ops[j])
  }

  /** Putting an entry whose key is new in front of a map with distinct keys keeps the keys distinct. */
  lemma UniqueCons(e: (string, Session), rest: Entries)
    requires UniqueKeys(rest) && e.0 !in Keys(rest)
    ensures UniqueKeys([e] + rest)
  {
    var m := [e] + rest;
    forall i, j | 0 <= i < j < |m|
      ensures m[i].0 != m[j].0
    {
      assert m[j] == rest[j - 1];
      if i == 0 {
        assert Keys(rest)[j - 1] == m[j].0;
      } else {
        assert m[i] == rest[i - 1];
      }
    }
  }

  /** A key of the tail is a key of the whole map. */
  lemma TailKey(m: Entries, k: string)
    requires |m| > 0 && k in Keys(m[1..])
    ensures k in Keys(m)
  {
    var j :| 0 <= j < |m| - 1 && Keys(m[1..])[j] == k;
    assert Keys(m)[j + 1] == k;
  }

  /** The differing entries are keyed by distinct local ids. */
  lemma {:induction false} DifferingUnique(local: Entries, remote: Entries, same: (Session, Session) -> bool)
    requires UniqueKeys(local)
    ensures UniqueKeys(Differing(local, remote, same))
    ensures forall i :: 0 <= i < |Differing(local, remote, same)| ==> Differing(local, remote, same)[i].0 in Keys(local)
  {
    if |local| > 0 {
      UniqueTail(local);
      DifferingUnique(local[1..], remote, same);
      var k := local[0].0;
      var here := if Get(remote, k).Some? && !same(local[0].1, Get(remote, k).value)
                  then [(k, Get(remote, k).value)] else [];
      var rest := Differing(local[1..], remote, same);
      assert Differing(local, remote, same) == here + rest;
      forall i | 0 <= i < |rest|
        ensures rest[i].0 in Keys(local)
      {
        TailKey(local, rest[i].0);
      }
      if here != [] {
        assert k !in Keys(rest);
        UniqueCons(here[0], rest);
        assert here == [here[0]];
        assert Keys(local)[0] == k;
      }
    }
  }

  /** The stale entries are keyed by distinct local ids. */
  lemma {:induction false} OnlyOnLeftUnique(local: Entries, remote: Entries)
    requires UniqueKeys(local)
    ensures UniqueKeys(OnlyOnLeft(local, remote))
    ensures forall i :: 0 <= i < |OnlyOnLeft(local, remote)| ==> OnlyOnLeft(local, remote)[i].0 in Keys(local)
  {
    if |local| > 0 {
      UniqueTail(local);
      OnlyOnLeftUnique(local[1..], remote);
      var here := if local[0].0 in Keys(remote) then [] else [local[0]];
      var rest := OnlyOnLeft(local[1..], remote);
      assert OnlyOnLeft(local, remote) == here + rest;
      forall i | 0 <= i < |rest|
        ensures rest[i].0 in Keys(local)
      {
        TailKey(local, rest[i].0);
      }
      if here != [] {
        assert local[0].0 !in Keys(rest);
        UniqueCons(local[0], rest);
        assert Keys(local)[0] == local[0].0;
      }
    }
  }

  /** The new entries are keyed by distinct remote ids. */
  lemma {:induction false} OnlyOnRightUnique(local: Entries, remote: Entries)
    requires UniqueKeys(remote)
    ensures UniqueKeys(OnlyOnRight(local, remote))
    ensures forall i :: 0 <= i < |OnlyOnRight(local, remote)| ==> OnlyOnRight(local, remote)[i].0 in Keys(remote)
  {
    if |remote| > 0 {
      UniqueTail(remote);
      OnlyOnRightUnique(local, remote[1..]);
      var here := if remote[0].0 in Keys(local) then [] else [remote[0]];
      var rest := OnlyOnRight(local, remote[1..]);
      assert OnlyOnRight(local, remote) == here + rest;
      forall i | 0 <= i < |rest|
        ensures rest[i].0 in Keys(remote)
      {
        TailKey(remote, rest[i].0);
      }
      if here != [] {
        assert remote[0].0 !in Keys(rest);
        UniqueCons(remote[0], rest);
        assert Keys(remote)[0] == remote[0].0;
      }
    }
  }

  /** Every operation carries an id, and it is one of keys. */
  predicate IdsWithin(ops: seq<Operation>, keys: seq<string>)
  {
    forall i :: 0 <= i < |ops| ==> OpId(ops[i]).Some? && OpId(ops[i]).value in keys
  }

  /** Every operation carries an id, and it is none of keys. */
  predicate IdsOutside(ops: seq<Operation>, keys: seq<string>)
  {
    forall i :: 0 <= i < |ops| ==> OpId(ops[i]).Some? && OpId(ops[i]).value !in keys
  }

  /** Two runs of operations with distinct ids and no id in common join into one with distinct ids. */
  lemma DistinctConcat(a: seq<Operation>, b: seq<Operation>, keys: seq<string>)
    requires OpIdsDistinct(a) && OpIdsDistinct(b)
    requires IdsWithin(a, keys) && IdsOutside(b, keys)
    ensures OpIdsDistinct(a + b)
  {
    var c := a + b;
    forall i, j | 0 <= i < j < |c|
      ensures OpId(c[i]) != OpId(c[j])
    {
      if j < |a| {
        assert c[i] == a[i] && c[j] == a[j];
      } else if i >= |a| {
        assert c[i] == b[i - |a|] && c[j] == b[j - |a|];
      } else {
        assert c[i] == a[i] && c[j] == b[j - |a|];
      }
    }
  }

  /** The updates are about distinct ids that both sides hold. */
  lemma UpdateIds(local: Entries, remote: Entries, same: (Session, Session) -> bool, now: int)
    requires UniqueKeys(local) && HaveLanguage(Differing(local, remote, same))
    ensures var u := UpdateOps(Differing(local, remote, same), now);
            OpIdsDistinct(u) && IdsWithin(u, Keys(local)) && IdsWithin(u, Keys(remote))
  {
    DifferingUnique(local, remote, same);
    var diff := Differing(local, remote, same);
    var u := UpdateOps(diff, now);
    forall i | 0 <= i < |u|
      ensures OpId(u[i]) == Some(diff[i].0) && diff[i].0 in Keys(remote)
    {
      assert Get(remote, diff[i].0).Some?;
    }
  }

  /** The deletions are about distinct local ids the server no longer lists. */
  lemma DeleteIds(local: Entries, remote: Entries)
    requires UniqueKeys(local)
    ensures var d := DeleteOps(OnlyOnLeft(local, remote));
            OpIdsDistinct(d) && IdsWithin(d, Keys(local)) && IdsOutside(d, Keys(remote))
  {
    OnlyOnLeftUnique(local, remote);
  }

  /** The insertions are about distinct server ids the device does not hold. */
  lemma InsertIds(local: Entries, remote: Entries, now: int)
    requires UniqueKeys(remote) && KeyedById(remote) && HaveLanguage(OnlyOnRight(local, remote))
    ensures var n := InsertOps(OnlyOnRight(local, remote), now);
            OpIdsDistinct(n) && IdsOutside(n, Keys(local))
  {
    OnlyOnRightUnique(local, remote);
    AddedKeyedById(local, remote);
    var added := OnlyOnRight(local, remote);
    var n := InsertOps(added, now);
    forall i | 0 <= i < |n|
      ensures OpId(n[i]) == Some(added[i].0)
    {
      assert added[i].1.id == Some(added[i].0);
    }
  }

  /** Updates, deletions and insertions whose ids fall in disjoint parts join with distinct ids. */
  lemma ThreePartsDistinct(u: seq<Operation>, d: seq<Operation>, n: seq<Operation>, localIds: seq<string>, remoteIds: seq<string>)
    requires OpIdsDistinct(u) && OpIdsDistinct(d) && OpIdsDistinct(n)
    requires IdsWithin(u, localIds) && IdsWithin(u, remoteIds)
    requires IdsWithin(d, localIds) && IdsOutside(d, remoteIds)
    requires IdsOutside(n, localIds)
    ensures OpIdsDistinct(u + d + n)
  {
    DistinctConcat(u, d, remoteIds);
    assert IdsWithin(u + d, localIds) by {
      forall i | 0 <= i < |u + d|
        ensures OpId((u + d)[i]).Some? && OpId((u + d)[i]).value in localIds
      {
        if i < |u| { assert (u + d)[i] == u[i]; } else { assert (u + d)[i] == d[i - |u|]; }
      }
    }
    DistinctConcat(u + d, n, localIds);
  }

  /**
   * Maps.difference splits the ids into three disjoint parts, so no id
   * gets more than one operation in a batch.
   */
  lemma OneOpPerId(local: Entries, remote: Entries, same: (Session, Session) -> bool, now: int)
    requires HaveLanguage(remote) && KeyedById(remote)
    requires UniqueKeys(local) && UniqueKeys(remote)
    ensures OpIdsDistinct(Batch(local, remote, same, now))
  {
    if |remote| > 0 {
      DifferingHasLanguage(local, remote, same);
      AddedHaveLanguage(local, remote);
      UpdateIds(local, remote, same, now);
      DeleteIds(local, remote);
      InsertIds(local, remote, now);
      ThreePartsDistinct(UpdateOps(Differing(local, remote, same), now), DeleteOps(OnlyOnLeft(local, remote)),
                         InsertOps(OnlyOnRight(local, remote), now), Keys(local), Keys(remote));
    }
  }

  // ---------------------------------------------------------------------
  // The helper object
  // ---------------------------------------------------------------------

  /** HttpRequest.ok(): 200; notModified(): 304. */
  const HTTP_OK: int := 200
  const HTTP_NOT_MODIFIED: int := 304

  /**
   * The status decision in getRemoteSessions: on 200 the parsed body
   * (or the JsonDeserializerException or IOException reading it raised),
   * on 304 an empty map, otherwise an IOException.
   */
  function RemoteSessions(status: int, parsed: Result<Entries, Exception>): (r: Result<Entries, Exception>)
    ensures status == HTTP_OK ==> r == parsed
    ensures status == HTTP_NOT_MODIFIED ==> r == Success([])
    ensures status != HTTP_OK && status != HTTP_NOT_MODIFIED ==> r == Failure(IOError)
  {
    if status == HTTP_OK then parsed
    else if status == HTTP_NOT_MODIFIED then Success([])
    else Failure(IOError)
  }

  class SessionHelper {
    /** System.currentTimeMillis() when the helper was built. */
    const now: int

    constructor(clock: int)
      ensures now == clock
    {
      now := clock;
    }

    /** createUpdateOps: one update per differing entry, in order. */
    method CreateUpdateOps(differing: Entries) returns (batch: seq<Operation>)
      requires HaveLanguage(differing)
      ensures batch == UpdateOps(differing, now)
    {
      batch := [];
      var i := 0;
      while i < |differing|
        invariant 0 <= i <= |differing|
        invariant batch == UpdateOps(differing[..i], now)
      {
        var newSession := differing[i].1;
        batch := batch + [Update(differing[i].0, ValuesOf(newSession, now))];
        assert differing[..i + 1][..i] == differing[..i];
        i := i + 1;
      }
      assert differing[..i] == differing;
    }

    /** createDeleteOps: one delete per stale id, in order. */
    method CreateDeleteOps(stale: Entries) returns (batch: seq<Operation>)
      ensures batch == DeleteOps(stale)
    {
      batch := [];
      var i := 0;
      while i < |stale|
        invariant 0 <= i <= |stale|
        invariant batch == DeleteOps(stale[..i])
      {
        batch := batch + [Delete(stale[i].0)];
        assert stale[..i + 1][..i] == stale[..i];
        i := i + 1;
      }
      assert stale[..i] == stale;
    }

    /** createInsertOps: one insert per new session, carrying its own id. */
    method CreateInsertOps(newSessions: Entries) returns (batch: seq<Operation>)
      requires HaveLanguage(newSessions)
      ensures batch == InsertOps(newSessions, now)
    {
      batch := [];
      var i := 0;
      while i < |newSessions|
        invariant 0 <= i <= |newSessions|
        invariant batch == InsertOps(newSessions[..i], now)
      {
        var session := newSessions[i].1;
        batch := batch + [Insert(session.id, ValuesOf(session, now))];
        assert newSessions[..i + 1][..i] == newSessions[..i];
        i := i + 1;
      }
      assert newSessions[..i] == newSessions;
    }

    /**
     * synchronizeSessions: fetch (status and parsed body as parameters),
     * then diff against the local snapshot with Session's identity equals.
     */
    method SynchronizeSessions(local: Entries, status: int, parsed: Result<Entries, Exception>)
      returns (r: Result<seq<Operation>, Exception>)
      requires parsed.Success? ==> HaveLanguage(parsed.value)
      ensures RemoteSessions(status, parsed).Failure? ==> r == Failure(RemoteSessions(status, parsed).error)
      ensures RemoteSessions(status, parsed).Success? ==>
                r == Success(Batch(local, RemoteSessions(status, parsed).value, Identity, now))
    {
      var remote := RemoteSessions(status, parsed);
      if remote.Failure? {
        return Failure(remote.error);
      }
      var batch: seq<Operation> := [];
      var sessions := remote.value;
      if |sessions| > 0 {
        DifferingHasLanguage(local, sessions, Identity);
        AddedHaveLanguage(local, sessions);
        var differing := Differing(local, sessions, Identity);
        var stale := OnlyOnLeft(local, sessions);
        var added := OnlyOnRight(local, sessions);
        var updates := CreateUpdateOps(differing);
        var deletes := CreateDeleteOps(stale);
        var inserts := CreateInsertOps(added);
        batch := updates + deletes + inserts;
        assert updates == UpdateOps(differing, now);
        assert HaveLanguage(sessions);
        assert Batch(local, sessions, Identity, now) == UpdateOps(differing, now) + DeleteOps(stale) + InsertOps(added, now);
      }
      return Success(batch);
    }
  }
}
