/** The one-off backfill that encrypts borrower rows written in the clear and fills in their index. */
module EncryptionBackfill {
  import opened Wrappers
  import opened BlindIndex

  predicate Needs(r: Row) {
    InClear(r.idNumber) || InClear(r.phone) || InClear(r.address) || InClear(r.email)
  }

  /** Some column of the row holds a text in clear. */
  predicate HoldsClear(r: Row) {
    exists field | field in FIELDS :: InClear(Get(r, field))
  }

  lemma NeedsIs(r: Row)
    ensures Needs(r) <==> HoldsClear(r)
  {
    assert Get(r, IdNumber) == r.idNumber && Get(r, Phone) == r.phone && Get(r, Address) == r.address && Get(r, Email) == r.email;
  }

  function Sealed(c: Crypto, v: Option<string>, nonce: int): Option<string> {
    if InClear(v) then Some(Encrypt(c, v.value, nonce)) else v
  }

  function NewHash(c: Crypto, v: Option<string>, hash: Option<string>, kind: Kind): Option<string> {
    if InClear(v) then Index(c, v, kind) else hash
  }

  function Filled(c: Crypto, nonce: Column -> int, r: Row): Row {
    Row(r.tenant,
        Sealed(c, r.idNumber, nonce(IdNumber)), NewHash(c, r.idNumber, r.idNumberHash, IdKind),
        Sealed(c, r.phone, nonce(Phone)), NewHash(c, r.phone, r.phoneHash, PhoneKind),
        Sealed(c, r.address, nonce(Address)), Sealed(c, r.email, nonce(Email)))
  }

  /** Another row of the organisation already has the national id this row would get. */
  predicate Conflicts(c: Crypto, t: Table, id: Id)
    requires id in t
  {
    var hash := NewHash(c, t[id].idNumber, t[id].idNumberHash, IdKind);
    hash.Some? && exists j | j in t :: j != id && t[j].tenant == t[id].tenant && t[j].idNumberHash == hash
  }

  function FillRow(c: Crypto, nonce: Nonces, t: Table, id: Id): Table {
    if id !in t || !Needs(t[id]) || Conflicts(c, t, id) then t
    else t[id := Filled(c, k => nonce(id, k), t[id])]
  }

  function FillRows(c: Crypto, nonce: Nonces, t: Table, ids: seq<Id>): Table
    decreases |ids|
  {
    if ids == [] then t else FillRows(c, nonce, FillRow(c, nonce, t, ids[0]), ids[1..])
  }

  datatype Outcome = Skipped | Updated | Conflict

  class BorrowerTable {
    var rows: Table

    /** One row of the loop; an update that breaks uniqueness fails and changes nothing. */
    method BackfillRow(c: Crypto, nonce: Nonces, id: Id) returns (outcome: Outcome)
      requires Sound(c) && id in rows
      modifies this
      ensures rows == FillRow(c, nonce, old(rows), id) && rows.Keys == old(rows).Keys
      ensures outcome.Skipped? <==> !HoldsClear(old(rows)[id])
      ensures outcome.Conflict? <==> HoldsClear(old(rows)[id]) && Conflicts(c, old(rows), id)
      ensures !outcome.Updated? ==> rows == old(rows)
      ensures !outcome.Conflict? ==> !HoldsClear(rows[id])
      ensures outcome.Updated? ==> rows[id] != old(rows)[id]
      ensures forall j | j in rows && j != id :: rows[j] == old(rows)[j]
    {
      NeedsIs(rows[id]);
      NeedsIs(Filled(c, k => nonce(id, k), rows[id]));
      if !Needs(rows[id]) {
        return Skipped;
      }
      if Conflicts(c, rows, id) {
        return Conflict;
      }
      FilledNeedsNothing(c, k => nonce(id, k), rows[id]);
      rows := rows[id := Filled(c, k => nonce(id, k), rows[id])];
      return Updated;
    }

    /** The loop over the rows read at the start, with its two counts. */
    method Backfill(c: Crypto, nonce: Nonces, ids: seq<Id>) returns (borrowers: nat, conflicts: nat)
      requires Sound(c) && (forall id | id in ids :: id in rows) && forall i, j | 0 <= i < j < |ids| :: ids[i] != ids[j]
      modifies this
      ensures rows == FillRows(c, nonce, old(rows), ids) && rows.Keys == old(rows).Keys
      ensures borrowers == |Changed(old(rows), rows, ids)| && conflicts == |Left(rows, ids)|
    {
      borrowers, conflicts := 0, 0;
      for i := 0 to |ids|
        invariant rows.Keys == old(rows).Keys
        invariant FillRows(c, nonce, rows, ids[i..]) == FillRows(c, nonce, old(rows), ids)
        invariant forall k | i <= k < |ids| :: rows[ids[k]] == old(rows)[ids[k]]
        invariant borrowers == |Changed(old(rows), rows, ids[..i])| && conflicts == |Left(rows, ids[..i])|
      {
        assert ids[i..][0] == ids[i] && ids[i..][1..] == ids[i + 1..];
        ghost var was := rows;
        var outcome := BackfillRow(c, nonce, ids[i]);
        OneMoreRow(old(rows), was, rows, ids, i);
        match outcome {
          case Skipped =>
          case Updated => borrowers := borrowers + 1;
          case Conflict => conflicts := conflicts + 1;
        }
      }
      assert ids[|ids|..] == [] && ids[..|ids|] == ids;
    }
  }

  /** The rows gone over that the loop changed, and those it left with a text in clear. */
  ghost function Changed(before: Table, after: Table, ids: seq<Id>): set<Id> {
    set id | id in ids && id in before && id in after && before[id] != after[id]
  }

  ghost function Left(t: Table, ids: seq<Id>): set<Id> {
    set id | id in ids && id in t && HoldsClear(t[id])
  }

  lemma OneMore(some: set<Id>, more: set<Id>, id: Id, one: bool)
    requires id !in some && forall j :: j in more <==> j in some || (one && j == id)
    ensures |more| == |some| + if one then 1 else 0
  {
    assert more == some + if one then {id} else {};
  }

  lemma OneMoreChanged(start: Table, was: Table, rows: Table, ids: seq<Id>, i: nat)
    requires i < |ids| && start.Keys == was.Keys == rows.Keys && ids[i] in rows
    requires forall j | j in rows && j != ids[i] :: rows[j] == was[j]
    requires forall k | 0 <= k < i :: ids[k] != ids[i]
    ensures |Changed(start, rows, ids[..i + 1])| == |Changed(start, was, ids[..i])| + if rows[ids[i]] != start[ids[i]] then 1 else 0
  {
    assert ids[..i + 1] == ids[..i] + [ids[i]];
    OneMore(Changed(start, was, ids[..i]), Changed(start, rows, ids[..i + 1]), ids[i], rows[ids[i]] != start[ids[i]]);
  }

  lemma OneMoreLeft(was: Table, rows: Table, ids: seq<Id>, i: nat)
    requires i < |ids| && was.Keys == rows.Keys && ids[i] in rows
    requires forall j | j in rows && j != ids[i] :: rows[j] == was[j]
    requires forall k | 0 <= k < i :: ids[k] != ids[i]
    ensures |Left(rows, ids[..i + 1])| == |Left(was, ids[..i])| + if HoldsClear(rows[ids[i]]) then 1 else 0
  {
    assert ids[..i + 1] == ids[..i] + [ids[i]];
    OneMore(Left(was, ids[..i]), Left(rows, ids[..i + 1]), ids[i], HoldsClear(rows[ids[i]]));
  }

  lemma OneMoreRow(start: Table, was: Table, rows: Table, ids: seq<Id>, i: nat)
    requires i < |ids| && start.Keys == was.Keys == rows.Keys && ids[i] in rows
    requires was[ids[i]] == start[ids[i]] && forall j | j in rows && j != ids[i] :: rows[j] == was[j]
    requires forall k | 0 <= k < i :: ids[k] != ids[i]
    ensures |Changed(start, rows, ids[..i + 1])| == |Changed(start, was, ids[..i])| + if rows[ids[i]] != start[ids[i]] then 1 else 0
    ensures |Left(rows, ids[..i + 1])| == |Left(was, ids[..i])| + if HoldsClear(rows[ids[i]]) then 1 else 0
  {
    OneMoreChanged(start, was, rows, ids, i);
    OneMoreLeft(was, rows, ids, i);
  }

  lemma FilledNeedsNothing(c: Crypto, nonce: Column -> int, r: Row)
    requires Sound(c)
    ensures !Needs(Filled(c, nonce, r))
  {
  }

  // ── Nothing readable changes ──────────────────────────────────────────────

  lemma SealedReadsSame(c: Crypto, v: Option<string>, nonce: int)
    requires Sound(c) && InClear(v)
    ensures Sealed(c, v, nonce).Some? && Decrypt(c, Sealed(c, v, nonce).value) == v
  {
    DecryptInvertsEncrypt(c, v.value, nonce);
  }

  lemma FilledReadsSame(c: Crypto, nonce: Column -> int, r: Row, field: Column)
    requires Sound(c) && field in {IdNumber, Phone, Address, Email}
    ensures Reads(c, Filled(c, nonce, r), field) == Reads(c, r, field)
  {
    if InClear(Get(r, field)) {
      SealedReadsSame(c, Get(r, field), nonce(field));
    }
  }

  /** The backfill preserves every decrypted value, whatever it skips. */
  lemma {:induction false} BackfillPreservesReads(c: Crypto, nonce: Nonces, t: Table, ids: seq<Id>, id: Id, field: Column)
    requires Sound(c) && id in t && field in {IdNumber, Phone, Address, Email}
    ensures id in FillRows(c, nonce, t, ids) && Reads(c, FillRows(c, nonce, t, ids)[id], field) == Reads(c, t[id], field)
    decreases |ids|
  {
    if ids != [] {
      FilledReadsSame(c, k => nonce(id, k), t[id], field);
      BackfillPreservesReads(c, nonce, FillRow(c, nonce, t, ids[0]), ids[1..], id, field);
    }
  }

  // ── The index is established ──────────────────────────────────────────────

  /** A row as older code left it: its index agrees, or it has a value in the clear and no hash yet. */
  predicate Ready(c: Crypto, r: Row) {
    forall sp | sp in HASHED :: Agrees(c, r, sp) || (Get(r, sp.hash.value).None? && InClear(Get(r, sp.field)))
  }

  ghost predicate AllReady(c: Crypto, t: Table) {
    forall id | id in t :: Ready(c, t[id])
  }

  lemma FilledAgrees(c: Crypto, nonce: Column -> int, r: Row)
    requires Sound(c) && Ready(c, r)
    ensures AllAgree(c, Filled(c, nonce, r))
  {
    forall sp | sp in HASHED
      ensures Agrees(c, Filled(c, nonce, r), sp)
    {
      FilledReadsSame(c, nonce, r, sp.field);
      assert Agrees(c, r, sp) || (Get(r, sp.hash.value).None? && InClear(Get(r, sp.field)));
    }
  }

  lemma AgreesIsReady(c: Crypto, r: Row)
    requires AllAgree(c, r)
    ensures Ready(c, r)
  {
  }

  lemma FillRowKeepsReady(c: Crypto, nonce: Nonces, t: Table, id: Id)
    requires Sound(c) && AllReady(c, t)
    ensures AllReady(c, FillRow(c, nonce, t, id))
  {
    if id in t {
      FilledAgrees(c, k => nonce(id, k), t[id]);
      AgreesIsReady(c, Filled(c, k => nonce(id, k), t[id]));
    }
  }

  /** A hash that agrees is the one the backfill would compute. */
  lemma HashStays(c: Crypto, r: Row)
    requires Ready(c, r) && r.idNumberHash.Some?
    ensures NewHash(c, r.idNumber, r.idNumberHash, IdKind) == r.idNumberHash
  {
    assert Spec(IdNumber, Some(IdNumberHash), IdKind) in HASHED;
    assert Agrees(c, r, Spec(IdNumber, Some(IdNumberHash), IdKind));
  }

  /** Nothing left for the backfill to do: the row is encrypted, or would break uniqueness. */
  predicate Settled(c: Crypto, t: Table, id: Id) {
    id in t ==> !Needs(t[id]) || Conflicts(c, t, id)
  }

  lemma FillRowSettles(c: Crypto, nonce: Nonces, t: Table, id: Id)
    requires Sound(c)
    ensures Settled(c, FillRow(c, nonce, t, id), id)
  {
    if id in t {
      FilledNeedsNothing(c, k => nonce(id, k), t[id]);
    }
  }

  lemma FillRowKeepsSettled(c: Crypto, nonce: Nonces, t: Table, id: Id, other: Id)
    requires Sound(c) && AllReady(c, t) && Settled(c, t, other)
    ensures Settled(c, FillRow(c, nonce, t, id), other)
  {
    var u := FillRow(c, nonce, t, id);
    if u != t && other in t && other != id && Needs(t[other]) {
      var hash := NewHash(c, t[other].idNumber, t[other].idNumberHash, IdKind);
      var j :| j in t && j != other && t[j].tenant == t[other].tenant && t[j].idNumberHash == hash;
      HashStays(c, t[j]);
      assert u[other] == t[other] && u[j].idNumberHash == hash && u[j].tenant == t[j].tenant;
    }
  }

  lemma {:induction false} FillRowsKeepSettled(c: Crypto, nonce: Nonces, t: Table, ids: seq<Id>, other: Id)
    requires Sound(c) && AllReady(c, t) && Settled(c, t, other)
    ensures Settled(c, FillRows(c, nonce, t, ids), other)
    decreases |ids|
  {
    if ids != [] {
      FillRowKeepsReady(c, nonce, t, ids[0]);
      FillRowKeepsSettled(c, nonce, t, ids[0], other);
      FillRowsKeepSettled(c, nonce, FillRow(c, nonce, t, ids[0]), ids[1..], other);
    }
  }

  lemma {:induction false} BackfillSettles(c: Crypto, nonce: Nonces, t: Table, ids: seq<Id>, id: Id)
    requires Sound(c) && AllReady(c, t) && id in ids
    ensures Settled(c, FillRows(c, nonce, t, ids), id)
    decreases |ids|
  {
    var next := FillRow(c, nonce, t, ids[0]);
    FillRowKeepsReady(c, nonce, t, ids[0]);
    if id == ids[0] {
      FillRowSettles(c, nonce, t, id);
      FillRowsKeepSettled(c, nonce, next, ids[1..], id);
    } else {
      BackfillSettles(c, nonce, next, ids[1..], id);
    }
  }

  lemma {:induction false} BackfillKeepsReady(c: Crypto, nonce: Nonces, t: Table, ids: seq<Id>)
    requires Sound(c) && AllReady(c, t)
    ensures AllReady(c, FillRows(c, nonce, t, ids))
    decreases |ids|
  {
    if ids != [] {
      FillRowKeepsReady(c, nonce, t, ids[0]);
      BackfillKeepsReady(c, nonce, FillRow(c, nonce, t, ids[0]), ids[1..]);
    }
  }

  /**
   * After the backfill every row it went over has an index that agrees with its plaintext, except
   * exactly those whose national id another row of the organisation already holds.
   */
  lemma BackfillEstablishesIndex(c: Crypto, nonce: Nonces, t: Table, ids: seq<Id>, id: Id)
    requires Sound(c) && AllReady(c, t) && id in ids && id in t
    ensures var after := FillRows(c, nonce, t, ids);
            id in after && (Conflicts(c, after, id) ||
            (AllAgree(c, after[id]) && !HoldsClear(after[id])))
  {
    BackfillPreservesReads(c, nonce, t, ids, id, IdNumber);
    BackfillSettles(c, nonce, t, ids, id);
    BackfillKeepsReady(c, nonce, t, ids);
    var after := FillRows(c, nonce, t, ids);
    NeedsIs(after[id]);
    if !Needs(after[id]) {
      NothingInClearAgrees(c, after[id]);
    }
  }

  lemma NothingInClearAgrees(c: Crypto, r: Row)
    requires Ready(c, r) && !Needs(r)
    ensures AllAgree(c, r)
  {
    forall sp | sp in HASHED
      ensures Agrees(c, r, sp)
    {
      assert !InClear(Get(r, sp.field));
    }
  }

  // ── Running it again ──────────────────────────────────────────────────────

  lemma {:induction false} SettledIsLeftAlone(c: Crypto, nonce: Nonces, t: Table, ids: seq<Id>)
    requires forall id | id in ids :: Settled(c, t, id)
    ensures FillRows(c, nonce, t, ids) == t
    decreases |ids|
  {
    if ids != [] {
      assert Settled(c, t, ids[0]);
      SettledIsLeftAlone(c, nonce, t, ids[1..]);
    }
  }

  /** Running the backfill again changes nothing, whatever the nonces and the conflicts. */
  lemma BackfillIsIdempotent(c: Crypto, first: Nonces, second: Nonces, t: Table, ids: seq<Id>)
    requires Sound(c) && AllReady(c, t)
    ensures var once := FillRows(c, first, t, ids); FillRows(c, second, once, ids) == once
  {
    var once := FillRows(c, first, t, ids);
    forall id | id in ids
      ensures Settled(c, once, id)
    {
      BackfillSettles(c, first, t, ids, id);
    }
    SettledIsLeftAlone(c, second, once, ids);
  }

  /** A row is skipped exactly when encrypting it would break the uniqueness of national ids. */
  lemma ConflictIsTheConstraint(c: Crypto, nonce: Column -> int, t: Table, id: Id)
    requires Unique(t) && id in t
    ensures Conflicts(c, t, id) <==> !Unique(t[id := Filled(c, nonce, t[id])])
  {
    var filled := Filled(c, nonce, t[id]);
    var u := t[id := filled];
    if Conflicts(c, t, id) {
      var j :| j in t && j != id && t[j].tenant == t[id].tenant && t[j].idNumberHash == filled.idNumberHash;
      assert u[j] == t[j] && u[id] == filled;
    }
  }
}
