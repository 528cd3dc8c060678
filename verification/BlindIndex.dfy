/**
 * Encrypted columns and their blind index: a keyed hash of the plaintext, kept beside the ciphertext
 * so that an exact match can be looked up. Cipher and keyed hash are parameters.
 */
module BlindIndex {
  import opened Wrappers

  // ── Field encryption ──────────────────────────────────────────────────────

  const PREFIX: string := "enc:v1:"

  /** `seal` takes a nonce; `unseal` fails on a text whose tag does not match. */
  datatype Crypto = Crypto(seal: (string, int) -> string, unseal: string -> Option<string>, mac: string -> string)

  predicate IsEncrypted(v: string) {
    PREFIX <= v
  }

  function Colons(v: string): nat {
    if v == "" then 0 else (if v[0] == ':' then 1 else 0) + Colons(v[1..])
  }

  /** Three parts after the prefix. */
  predicate WellFormed(v: string)
    requires IsEncrypted(v)
  {
    Colons(v[|PREFIX|..]) == 2
  }

  /** What the cipher and the keyed hash promise: unsealing inverts sealing, and the hash is injective. */
  ghost predicate Sound(c: Crypto) {
    && (forall p, n :: IsEncrypted(c.seal(p, n)) && WellFormed(c.seal(p, n)) && c.unseal(c.seal(p, n)) == Some(p))
    && forall p, q :: c.mac(p) == c.mac(q) ==> p == q
  }

  function Escape(p: string): string {
    if p == "" then ""
    else (if p[0] == ':' then ";0" else if p[0] == ';' then ";1" else [p[0]]) + Escape(p[1..])
  }

  function Unescape(e: string): string {
    if e == "" then ""
    else if e[0] == ';' && |e| >= 2 then (if e[1] == '0' then ":" else ";") + Unescape(e[2..])
    else [e[0]] + Unescape(e[1..])
  }

  lemma {:induction false} UnescapeInvertsEscape(p: string)
    ensures Unescape(Escape(p)) == p && Colons(Escape(p)) == 0
  {
    if p != "" {
      UnescapeInvertsEscape(p[1..]);
      var rest := Escape(p[1..]);
      assert p == [p[0]] + p[1..];
      if p[0] == ':' || p[0] == ';' {
        assert Escape(p)[2..] == rest && Escape(p)[1..][1..] == rest;
        assert Colons(Escape(p)[1..]) == Colons(rest);
      } else {
        assert Escape(p)[1..] == rest;
      }
    }
  }

  function Boxed(p: string): string {
    PREFIX + "::" + Escape(p)
  }

  lemma BoxOpens(p: string)
    ensures IsEncrypted(Boxed(p)) && WellFormed(Boxed(p)) && |Boxed(p)| >= 9 && Unescape(Boxed(p)[9..]) == p
  {
    UnescapeInvertsEscape(p);
    var e := Escape(p);
    assert Boxed(p)[|PREFIX|..] == "::" + e && Boxed(p)[9..] == e;
    assert ("::" + e)[1..] == ":" + e && (":" + e)[1..] == e;
  }

  /** The promises can be kept together. */
  lemma SoundIsPossible()
    ensures exists c :: Sound(c)
  {
    var c := Crypto((p, n) => Boxed(p), v => if |v| < 9 then None else Some(Unescape(v[9..])), p => p);
    forall p, n
      ensures IsEncrypted(c.seal(p, n)) && WellFormed(c.seal(p, n)) && c.unseal(c.seal(p, n)) == Some(p)
    {
      BoxOpens(p);
    }
    assert Sound(c);
  }

  function Encrypt(c: Crypto, v: string, nonce: int): string {
    if v == "" || IsEncrypted(v) then v else c.seal(v, nonce)
  }

  /** None when the read throws: a text that looks sealed but does not unseal. */
  function Decrypt(c: Crypto, v: string): Option<string> {
    if !IsEncrypted(v) || !WellFormed(v) then Some(v) else c.unseal(v)
  }

  lemma DecryptInvertsEncrypt(c: Crypto, v: string, nonce: int)
    requires Sound(c) && !IsEncrypted(v)
    ensures Decrypt(c, Encrypt(c, v, nonce)) == Some(v)
  {
  }

  // ── Normalisation ─────────────────────────────────────────────────────────

  datatype Kind = PhoneKind | IdKind | RawKind

  predicate IsSpace(ch: char) {
    ch in {'\t', '\n', '\r', ' ', '\U{0B}', '\U{0C}', '\U{A0}', '\U{FEFF}', '\U{1680}', '\U{2028}', '\U{2029}', '\U{202F}',
           '\U{205F}', '\U{3000}'} || '\U{2000}' <= ch <= '\U{200A}'
  }

  /** Blanks, hyphens and brackets do not count in a phone number. */
  predicate Dropped(ch: char) {
    IsSpace(ch) || ch in {'-', '(', ')'}
  }

  function Strip(v: string): string {
    if v == "" then "" else (if Dropped(v[0]) then "" else [v[0]]) + Strip(v[1..])
  }

  function TrimLeft(v: string): string {
    if v != "" && IsSpace(v[0]) then TrimLeft(v[1..]) else v
  }

  function TrimRight(v: string): string {
    if v != "" && IsSpace(v[|v| - 1]) then TrimRight(v[..|v| - 1]) else v
  }

  function Trim(v: string): string {
    TrimRight(TrimLeft(v))
  }

  function UpperChar(ch: char): char {
    if 'a' <= ch <= 'z' then (ch as int - 32) as char else ch
  }

  function Upper(v: string): string {
    seq(|v|, i requires 0 <= i < |v| => UpperChar(v[i]))
  }

  function Normalise(v: string, kind: Kind): string {
    match kind
    case PhoneKind => Strip(v)
    case IdKind => Upper(Trim(v))
    case RawKind => Trim(v)
  }

  function Index(c: Crypto, v: Option<string>, kind: Kind): Option<string> {
    if v.None? || v.value == "" then None else Some(c.mac(Normalise(v.value, kind)))
  }

  // ── Rows and writes ───────────────────────────────────────────────────────

  datatype Column = IdNumber | IdNumberHash | Phone | PhoneHash | Address | Email

  datatype Row = Row(tenant: string, idNumber: Option<string>, idNumberHash: Option<string>, phone: Option<string>,
                     phoneHash: Option<string>, address: Option<string>, email: Option<string>)

  function Get(r: Row, col: Column): Option<string> {
    match col
    case IdNumber => r.idNumber
    case IdNumberHash => r.idNumberHash
    case Phone => r.phone
    case PhoneHash => r.phoneHash
    case Address => r.address
    case Email => r.email
  }

  function Put(r: Row, col: Column, v: Option<string>): (after: Row)
    ensures Get(after, col) == v && after.tenant == r.tenant
    ensures forall k | k != col :: Get(after, k) == Get(r, k)
  {
    match col
    case IdNumber => r.(idNumber := v)
    case IdNumberHash => r.(idNumberHash := v)
    case Phone => r.(phone := v)
    case PhoneHash => r.(phoneHash := v)
    case Address => r.(address := v)
    case Email => r.(email := v)
  }

  /** What a caller may give for a column; `SetTo` is the wrapped form, which the middleware passes over. */
  datatype Value = Null | Text(text: string) | SetTo(to: Option<string>)

  type Data = map<Column, Value>

  function Stored(v: Value): Option<string> {
    match v
    case Null => None
    case Text(s) => Some(s)
    case SetTo(to) => to
  }

  /** The row a write leaves: the columns it names, and the others as they were. */
  function Written(r: Row, d: Data): Row {
    var col := (k: Column) => if k in d then Stored(d[k]) else Get(r, k);
    Row(r.tenant, col(IdNumber), col(IdNumberHash), col(Phone), col(PhoneHash), col(Address), col(Email))
  }

  function Blank(tenant: string): Row {
    Row(tenant, None, None, None, None, None, None)
  }

  datatype Spec = Spec(field: Column, hash: Option<Column>, kind: Kind)

  const ENCRYPTED_WRITE: seq<Spec> := [
    Spec(IdNumber, Some(IdNumberHash), IdKind),
    Spec(Phone, Some(PhoneHash), PhoneKind),
    Spec(Address, None, RawKind),
    Spec(Email, None, RawKind)
  ]

  function Hashed(d: Data, sp: Spec, h: Option<string>): Data {
    if sp.hash.None? then d
    else d[sp.hash.value := if h.None? then Null else Text(h.value)]
  }

  function EncodeOne(c: Crypto, nonce: Column -> int, sp: Spec, d: Data): Data {
    if sp.field !in d || d[sp.field].SetTo? then d
    else if d[sp.field].Null? then Hashed(d, sp, None)
    else
      var v := d[sp.field].text;
      if IsEncrypted(v) then d
      else Hashed(d, sp, Index(c, Some(v), sp.kind))[sp.field := Text(Encrypt(c, v, nonce(sp.field)))]
  }

  function Encode(c: Crypto, nonce: Column -> int, specs: seq<Spec>, d: Data): Data
    decreases |specs|
  {
    if specs == [] then d else Encode(c, nonce, specs[1..], EncodeOne(c, nonce, specs[0], d))
  }

  /** The data object of one write, changed in place. */
  class Payload {
    var data: Data

    constructor (d: Data)
      ensures data == d
    {
      data := d;
    }

    method Apply(c: Crypto, nonce: Column -> int, specs: seq<Spec>)
      modifies this
      ensures data == Encode(c, nonce, specs, old(data))
    {
      var i := 0;
      while i < |specs|
        invariant i <= |specs|
        invariant Encode(c, nonce, specs[i..], data) == Encode(c, nonce, specs, old(data))
      {
        var sp := specs[i];
        assert specs[i..][1..] == specs[i + 1..];
        i := i + 1;
        if sp.field !in data {
          continue;
        }
        match data[sp.field] {
          case Null =>
            if sp.hash.Some? {
              data := data[sp.hash.value := Null];
            }
          case Text(v) =>
            if !IsEncrypted(v) {
              if sp.hash.Some? {
                var h := Index(c, Some(v), sp.kind);
                data := data[sp.hash.value := if h.None? then Null else Text(h.value)];
              }
              data := data[sp.field := Text(Encrypt(c, v, nonce(sp.field)))];
            }
          case SetTo(_) =>
        }
      }
      assert specs[i..] == [];
    }
  }

  // ── The index agrees with the plaintext ───────────────────────────────────

  const HASHED: set<Spec> := {Spec(IdNumber, Some(IdNumberHash), IdKind), Spec(Phone, Some(PhoneHash), PhoneKind)}

  /** What reading the column gives; the outer None is a read that throws. */
  function Reads(c: Crypto, r: Row, col: Column): Option<Option<string>> {
    match Get(r, col)
    case None => Some(None)
    case Some(v) =>
      match Decrypt(c, v)
      case None => None
      case Some(plain) => Some(Some(plain))
  }

  predicate Agrees(c: Crypto, r: Row, sp: Spec)
    requires sp in HASHED
  {
    Reads(c, r, sp.field).Some? && Get(r, sp.hash.value) == Index(c, Reads(c, r, sp.field).value, sp.kind)
  }

  predicate AllAgree(c: Crypto, r: Row) {
    forall sp | sp in HASHED :: Agrees(c, r, sp)
  }

  /** Callers never write the hash columns themselves. */
  predicate HashFree(d: Data) {
    IdNumberHash !in d && PhoneHash !in d
  }

  /** A plain value, not wrapped and not already looking sealed. */
  predicate Clean(d: Data, field: Column) {
    field in d ==> !d[field].SetTo? && (d[field].Text? ==> !IsEncrypted(d[field].text))
  }

  predicate SameAt(a: Data, b: Data, col: Column) {
    if col in a then col in b && a[col] == b[col] else col !in b
  }

  predicate Concerns(sp: Spec, col: Column) {
    sp.field == col || sp.hash == Some(col)
  }

  predicate Disjoint(specs: seq<Spec>) {
    forall i, j | 0 <= i < j < |specs| ::
      !Concerns(specs[i], specs[j].field) && (specs[j].hash.Some? ==> !Concerns(specs[i], specs[j].hash.value))
  }

  lemma OneLeavesOthers(c: Crypto, nonce: Column -> int, sp: Spec, d: Data, col: Column)
    requires !Concerns(sp, col)
    ensures SameAt(EncodeOne(c, nonce, sp, d), d, col)
  {
  }

  lemma OneLooksOnlyAtItsField(c: Crypto, nonce: Column -> int, sp: Spec, d: Data, e: Data, col: Column)
    requires Concerns(sp, col) && SameAt(d, e, sp.field) && SameAt(d, e, col)
    ensures SameAt(EncodeOne(c, nonce, sp, d), EncodeOne(c, nonce, sp, e), col)
  {
  }

  lemma {:induction false} EncodeLeavesOthers(c: Crypto, nonce: Column -> int, specs: seq<Spec>, d: Data, col: Column)
    requires forall sp | sp in specs :: !Concerns(sp, col)
    ensures SameAt(Encode(c, nonce, specs, d), d, col)
    decreases |specs|
  {
    if specs != [] {
      OneLeavesOthers(c, nonce, specs[0], d, col);
      EncodeLeavesOthers(c, nonce, specs[1..], EncodeOne(c, nonce, specs[0], d), col);
    }
  }

  /** What the loop makes of one field and its hash, whatever the other fields are. */
  lemma {:induction false} EncodeField(c: Crypto, nonce: Column -> int, specs: seq<Spec>, d: Data, sp: Spec, col: Column)
    requires sp in specs && Disjoint(specs) && Concerns(sp, col)
    ensures SameAt(Encode(c, nonce, specs, d), EncodeOne(c, nonce, sp, d), col)
    decreases |specs|
  {
    var rest, next := specs[1..], EncodeOne(c, nonce, specs[0], d);
    assert forall i | 0 <= i < |rest| :: rest[i] == specs[i + 1];
    if specs[0] == sp {
      EncodeLeavesOthers(c, nonce, rest, next, col);
    } else {
      OneLeavesOthers(c, nonce, specs[0], d, col);
      OneLeavesOthers(c, nonce, specs[0], d, sp.field);
      EncodeField(c, nonce, rest, next, sp, col);
      OneLooksOnlyAtItsField(c, nonce, sp, next, d, col);
    }
  }

  lemma EncodeHashed(c: Crypto, nonce: Column -> int, d: Data, sp: Spec)
    requires sp in HASHED
    ensures SameAt(Encode(c, nonce, ENCRYPTED_WRITE, d), EncodeOne(c, nonce, sp, d), sp.field)
    ensures SameAt(Encode(c, nonce, ENCRYPTED_WRITE, d), EncodeOne(c, nonce, sp, d), sp.hash.value)
  {
    assert sp == ENCRYPTED_WRITE[0] || sp == ENCRYPTED_WRITE[1];
    EncodeField(c, nonce, ENCRYPTED_WRITE, d, sp, sp.field);
    EncodeField(c, nonce, ENCRYPTED_WRITE, d, sp, sp.hash.value);
  }

  /** A clean write makes the index agree, or leaves both as they were. */
  lemma CleanWriteAgrees(c: Crypto, nonce: Column -> int, d: Data, r: Row, sp: Spec)
    requires Sound(c) && HashFree(d) && sp in HASHED && Clean(d, sp.field)
    requires sp.field in d || Agrees(c, r, sp)
    ensures Agrees(c, Written(r, Encode(c, nonce, ENCRYPTED_WRITE, d)), sp)
  {
    EncodeHashed(c, nonce, d, sp);
    if sp.field in d && d[sp.field].Text? {
      DecryptInvertsEncrypt(c, d[sp.field].text, nonce(sp.field));
    }
  }

  /** A value the middleware passes over lands beside the old hash. */
  lemma UncleanWriteKeepsHash(c: Crypto, nonce: Column -> int, d: Data, r: Row, sp: Spec)
    requires HashFree(d) && sp in HASHED && !Clean(d, sp.field)
    ensures var after := Written(r, Encode(c, nonce, ENCRYPTED_WRITE, d));
            Get(after, sp.field) == Stored(d[sp.field]) && Get(after, sp.hash.value) == Get(r, sp.hash.value)
  {
    EncodeHashed(c, nonce, d, sp);
  }

  /**
   * Exactly when a write keeps hash == blindIndex(decrypted field) on every agreeing row: when the
   * value given for the field is neither wrapped nor already looks sealed.
   */
  lemma WritesKeepAgreementExactlyWhenClean(c: Crypto, nonce: Column -> int, d: Data, sp: Spec)
    requires Sound(c) && HashFree(d) && sp in HASHED
    ensures (forall r | Agrees(c, r, sp) :: Agrees(c, Written(r, Encode(c, nonce, ENCRYPTED_WRITE, d)), sp))
            <==> Clean(d, sp.field)
  {
    if Clean(d, sp.field) {
      forall r | Agrees(c, r, sp)
        ensures Agrees(c, Written(r, Encode(c, nonce, ENCRYPTED_WRITE, d)), sp)
      {
        CleanWriteAgrees(c, nonce, d, r, sp);
      }
    } else {
      var blank := Blank("");
      var full := Put(Put(blank, sp.field, Some("a")), sp.hash.value, Index(c, Some("a"), sp.kind));
      UncleanWriteKeepsHash(c, nonce, d, blank, sp);
      UncleanWriteKeepsHash(c, nonce, d, full, sp);
      assert Agrees(c, blank, sp) && Agrees(c, full, sp);
    }
  }

  function SpecOf(field: Column): (sp: Spec)
    requires field in {IdNumber, Phone, Address, Email}
    ensures sp in ENCRYPTED_WRITE && sp.field == field
  {
    ENCRYPTED_WRITE[if field.IdNumber? then 0 else if field.Phone? then 1 else if field.Address? then 2 else 3]
  }

  lemma OneReadsBack(c: Crypto, nonce: Column -> int, d: Data, sp: Spec)
    requires Sound(c) && sp.field in d && Clean(d, sp.field) && sp.hash != Some(sp.field)
    ensures var e := EncodeOne(c, nonce, sp, d);
            && sp.field in e
            && match Stored(e[sp.field])
               case None => Stored(d[sp.field]) == None
               case Some(v) => Decrypt(c, v) == Stored(d[sp.field])
  {
    if d[sp.field].Text? {
      DecryptInvertsEncrypt(c, d[sp.field].text, nonce(sp.field));
    }
  }

  /** What is written in the clear is what is read back, and a column set to NULL reads as NULL. */
  lemma ReadsReturnWhatWasWritten(c: Crypto, nonce: Column -> int, d: Data, r: Row, field: Column)
    requires Sound(c) && field in {IdNumber, Phone, Address, Email} && field in d && Clean(d, field)
    ensures Reads(c, Written(r, Encode(c, nonce, ENCRYPTED_WRITE, d)), field) ==
            Some(if d[field].Text? then Some(d[field].text) else None)
  {
    var sp := SpecOf(field);
    EncodeField(c, nonce, ENCRYPTED_WRITE, d, sp, field);
    OneReadsBack(c, nonce, d, sp);
  }

  // ── Nothing is stored in clear ────────────────────────────────────────────

  /** A text that anybody with the database could read. */
  predicate InClear(v: Option<string>) {
    v.Some? && v.value != "" && !IsEncrypted(v.value)
  }

  lemma OneSeals(c: Crypto, nonce: Column -> int, d: Data, sp: Spec)
    requires Sound(c) && sp.field in d && sp.hash != Some(sp.field)
    ensures var e := EncodeOne(c, nonce, sp, d);
            sp.field in e && (InClear(Stored(e[sp.field])) <==> d[sp.field].SetTo? && InClear(d[sp.field].to))
  {
  }

  /**
   * Every text the middleware is given for one of the four columns is stored sealed and opens to that
   * text; an empty one, or one that looks sealed already, is stored as it is.
   */
  lemma TextsAreSealed(c: Crypto, nonce: Column -> int, d: Data, field: Column)
    requires Sound(c) && field in {IdNumber, Phone, Address, Email} && field in d && d[field].Text?
    ensures var e := Encode(c, nonce, ENCRYPTED_WRITE, d);
            && field in e && e[field].Text?
            && if d[field].text == "" || "enc:v1:" <= d[field].text then e[field] == d[field]
               else "enc:v1:" <= e[field].text && Decrypt(c, e[field].text) == Some(d[field].text)
  {
    var sp := SpecOf(field);
    EncodeField(c, nonce, ENCRYPTED_WRITE, d, sp, field);
    if !IsEncrypted(d[field].text) {
      DecryptInvertsEncrypt(c, d[field].text, nonce(field));
    }
  }

  /** A write gives the column a text in clear in the one form the middleware passes over. */
  predicate Wraps(d: Data, field: Column) {
    field in d && d[field].SetTo? && InClear(d[field].to)
  }

  /** What a write leaves in clear is what was in clear and not written, or was written wrapped. */
  lemma InClearExactly(c: Crypto, nonce: Column -> int, d: Data, r: Row, field: Column)
    requires Sound(c) && field in {IdNumber, Phone, Address, Email}
    ensures InClear(Get(Written(r, Encode(c, nonce, ENCRYPTED_WRITE, d)), field))
            <==> Wraps(d, field) || (field !in d && InClear(Get(r, field)))
  {
    var sp := SpecOf(field);
    EncodeField(c, nonce, ENCRYPTED_WRITE, d, sp, field);
    if field in d {
      OneSeals(c, nonce, d, sp);
    }
  }

  // ── Tables ────────────────────────────────────────────────────────────────

  type Id = string
  type Table = map<Id, Row>

  /** One national id per organisation. */
  predicate Unique(t: Table) {
    forall i, j | i in t && j in t && i != j && t[i].tenant == t[j].tenant :: t[i].idNumberHash.None? || t[i].idNumberHash != t[j].idNumberHash
  }

  /** create and createMany; update and updateMany; upsert. */
  datatype Op =
    | Insert(rows: map<Id, (string, Data)>)
    | Modify(ids: set<Id>, data: Data)
    | Upsert(id: Id, tenant: string, create: Data, update: Data)

  type Nonces = (Id, Column) -> int

  function Next(c: Crypto, nonce: Nonces, t: Table, op: Op): Table {
    match op
    case Insert(rows) =>
      t + map id | id in rows && id !in t ::
        Written(Blank(rows[id].0), Encode(c, k => nonce(id, k), ENCRYPTED_WRITE, rows[id].1))
    case Modify(ids, data) =>
      var e := Encode(c, k => nonce("", k), ENCRYPTED_WRITE, data);
      map id | id in t :: if id in ids then Written(t[id], e) else t[id]
    case Upsert(id, tenant, create, update) =>
      t[id := if id in t then Written(t[id], Encode(c, k => nonce(id, k), ENCRYPTED_WRITE, update))
              else Written(Blank(tenant), Encode(c, k => nonce(id, k), ENCRYPTED_WRITE, create))]
  }

  /** A write that would give two rows one national id fails as a whole. */
  function Apply(c: Crypto, nonce: Nonces, t: Table, op: Op): Table {
    var next := Next(c, nonce, t, op);
    if Unique(next) then next else t
  }

  predicate CleanData(d: Data) {
    HashFree(d) && Clean(d, IdNumber) && Clean(d, Phone)
  }

  predicate CleanOp(op: Op) {
    match op
    case Insert(rows) => forall id | id in rows :: CleanData(rows[id].1)
    case Modify(_, data) => CleanData(data)
    case Upsert(_, _, create, update) => CleanData(create) && CleanData(update)
  }

  ghost predicate TableAgrees(c: Crypto, t: Table) {
    forall id | id in t :: AllAgree(c, t[id])
  }

  lemma WriteAgrees(c: Crypto, nonce: Column -> int, d: Data, r: Row)
    requires Sound(c) && CleanData(d) && AllAgree(c, r)
    ensures AllAgree(c, Written(r, Encode(c, nonce, ENCRYPTED_WRITE, d)))
  {
    var after := Written(r, Encode(c, nonce, ENCRYPTED_WRITE, d));
    forall sp | sp in HASHED
      ensures Agrees(c, after, sp)
    {
      assert Agrees(c, r, sp);
      CleanWriteAgrees(c, nonce, d, r, sp);
    }
  }

  lemma BlankAgrees(c: Crypto, tenant: string)
    ensures AllAgree(c, Blank(tenant))
  {
  }

  lemma OpKeepsAgreement(c: Crypto, nonce: Nonces, t: Table, op: Op)
    requires Sound(c) && CleanOp(op) && TableAgrees(c, t)
    ensures TableAgrees(c, Apply(c, nonce, t, op))
  {
    NextAgrees(c, nonce, t, op);
  }

  function Run(c: Crypto, nonces: nat -> Nonces, t: Table, ops: seq<Op>): Table
    decreases |ops|
  {
    if ops == [] then t else Run(c, nonces, Apply(c, nonces(|ops|), t, ops[0]), ops[1..])
  }

  /** Over any run of clean creates, updates, upserts and bulk writes, every row's index agrees with its plaintext. */
  lemma {:induction false} RunKeepsAgreement(c: Crypto, nonces: nat -> Nonces, t: Table, ops: seq<Op>)
    requires Sound(c) && TableAgrees(c, t) && forall op | op in ops :: CleanOp(op)
    ensures TableAgrees(c, Run(c, nonces, t, ops))
    decreases |ops|
  {
    if ops != [] {
      OpKeepsAgreement(c, nonces(|ops|), t, ops[0]);
      RunKeepsAgreement(c, nonces, Apply(c, nonces(|ops|), t, ops[0]), ops[1..]);
    }
  }

  // ── What a write does to the table ────────────────────────────────────────

  const FIELDS: set<Column> := {IdNumber, Phone, Address, Email}

  /** The rows there are when a write is through, the data it gives a row, and the row's organisation. */
  function RowsThen(t: Table, op: Op): set<Id> {
    match op
    case Insert(rows) => t.Keys + rows.Keys
    case Modify(_, _) => t.Keys
    case Upsert(id, _, _, _) => t.Keys + {id}
  }

  function GivenTo(t: Table, op: Op, id: Id): Data {
    match op
    case Insert(rows) => if id in rows && id !in t then rows[id].1 else map[]
    case Modify(ids, data) => if id in ids then data else map[]
    case Upsert(at, _, create, update) => if id != at then map[] else if id in t then update else create
  }

  function TenantThen(t: Table, op: Op, id: Id): string
    requires id in RowsThen(t, op)
  {
    if id in t then t[id].tenant
    else match op
      case Insert(rows) => rows[id].0
      case Modify(_, _) => ""
      case Upsert(_, tenant, _, _) => tenant
  }

  /** What reading the column should give: what the write gives it, or else what it gave before. */
  function ReadsThen(c: Crypto, t: Table, op: Op, id: Id, field: Column): Option<Option<string>> {
    var d := GivenTo(t, op, id);
    if field in d then Some(if d[field].Text? then Some(d[field].text) else None) else if id in t then Reads(c, t[id], field) else Some(None)
  }

  predicate CleanEverywhere(op: Op) {
    CleanOp(op) && match op
      case Insert(rows) => forall id | id in rows :: Clean(rows[id].1, Address) && Clean(rows[id].1, Email)
      case Modify(_, data) => Clean(data, Address) && Clean(data, Email)
      case Upsert(_, _, create, update) =>
        Clean(create, Address) && Clean(create, Email) && Clean(update, Address) && Clean(update, Email)
  }

  /** Two rows of one organisation would have the same national id, however it is written. */
  ghost predicate Clash(c: Crypto, t: Table, op: Op) {
    exists i, j :: i in RowsThen(t, op) && j in RowsThen(t, op) && i != j && SameId(c, t, op, i, j)
  }

  predicate SameId(c: Crypto, t: Table, op: Op, i: Id, j: Id)
    requires i in RowsThen(t, op) && j in RowsThen(t, op)
  {
    var a, b := ReadsThen(c, t, op, i, IdNumber), ReadsThen(c, t, op, j, IdNumber);
    && TenantThen(t, op, i) == TenantThen(t, op, j)
    && a.Some? && a.value.Some? && a.value.value != "" && b.Some? && b.value.Some? && b.value.value != ""
    && Normalise(a.value.value, IdKind) == Normalise(b.value.value, IdKind)
  }

  lemma WrittenReads(c: Crypto, nonce: Column -> int, d: Data, r: Row, field: Column)
    requires Sound(c) && field in FIELDS && Clean(d, field)
    ensures Reads(c, Written(r, Encode(c, nonce, ENCRYPTED_WRITE, d)), field)
            == if field in d then Some(if d[field].Text? then Some(d[field].text) else None) else Reads(c, r, field)
  {
    if field in d {
      ReadsReturnWhatWasWritten(c, nonce, d, r, field);
    } else {
      EncodeField(c, nonce, ENCRYPTED_WRITE, d, SpecOf(field), field);
    }
  }

  lemma NextReads(c: Crypto, nonce: Nonces, t: Table, op: Op, id: Id, field: Column)
    requires Sound(c) && field in FIELDS && CleanEverywhere(op)
    ensures id in Next(c, nonce, t, op) <==> id in RowsThen(t, op)
    ensures id in RowsThen(t, op) ==>
              var next := Next(c, nonce, t, op);
              next[id].tenant == TenantThen(t, op, id) && Reads(c, next[id], field) == ReadsThen(c, t, op, id, field)
  {
    if id in RowsThen(t, op) {
      match op {
        case Insert(rows) =>
          if id !in t {
            WrittenReads(c, k => nonce(id, k), rows[id].1, Blank(rows[id].0), field);
          }
        case Modify(_, data) => WrittenReads(c, k => nonce("", k), data, t[id], field);
        case Upsert(at, tenant, create, update) =>
          if id == at {
            if id in t {
              WrittenReads(c, k => nonce(id, k), update, t[id], field);
            } else {
              WrittenReads(c, k => nonce(id, k), create, Blank(tenant), field);
            }
          }
      }
    }
  }

  lemma NextAgrees(c: Crypto, nonce: Nonces, t: Table, op: Op)
    requires Sound(c) && CleanOp(op) && TableAgrees(c, t)
    ensures TableAgrees(c, Next(c, nonce, t, op))
  {
    var next := Next(c, nonce, t, op);
    forall id | id in next
      ensures AllAgree(c, next[id])
    {
      match op {
        case Insert(rows) =>
          if id !in t {
            BlankAgrees(c, rows[id].0);
            WriteAgrees(c, k => nonce(id, k), rows[id].1, Blank(rows[id].0));
          }
        case Modify(_, data) => WriteAgrees(c, k => nonce("", k), data, t[id]);
        case Upsert(at, tenant, create, update) =>
          if id == at {
            BlankAgrees(c, tenant);
            if id in t {
              WriteAgrees(c, k => nonce(id, k), update, t[id]);
            } else {
              WriteAgrees(c, k => nonce(id, k), create, Blank(tenant));
            }
          }
      }
    }
  }

  /** Agreeing rows have the same national-id hash exactly when their plaintexts, normalised, are the same. */
  lemma SameHash(c: Crypto, a: Row, b: Row)
    requires Sound(c) && AllAgree(c, a) && AllAgree(c, b)
    ensures var v, w := Reads(c, a, IdNumber), Reads(c, b, IdNumber);
            && v.Some? && w.Some?
            && (a.idNumberHash.Some? && a.idNumberHash == b.idNumberHash <==>
                  v.value.Some? && v.value.value != "" && w.value.Some? && w.value.value != ""
                  && Normalise(v.value.value, IdKind) == Normalise(w.value.value, IdKind))
  {
    var sp := Spec(IdNumber, Some(IdNumberHash), IdKind);
    assert sp in HASHED && Agrees(c, a, sp) && Agrees(c, b, sp);
  }

  predicate HashesClash(t: Table, i: Id, j: Id)
    requires i in t && j in t
  {
    t[i].tenant == t[j].tenant && t[i].idNumberHash.Some? && t[i].idNumberHash == t[j].idNumberHash
  }

  lemma SameIdIsSameHash(c: Crypto, nonce: Nonces, t: Table, op: Op, i: Id, j: Id)
    requires Sound(c) && CleanEverywhere(op) && TableAgrees(c, Next(c, nonce, t, op))
    requires i in RowsThen(t, op) && j in RowsThen(t, op)
    ensures var next := Next(c, nonce, t, op);
            i in next && j in next && (SameId(c, t, op, i, j) <==> HashesClash(next, i, j))
  {
    var next := Next(c, nonce, t, op);
    NextReads(c, nonce, t, op, i, IdNumber);
    NextReads(c, nonce, t, op, j, IdNumber);
    SameHash(c, next[i], next[j]);
  }

  lemma UniqueMeans(t: Table)
    ensures Unique(t) <==> forall i, j | i in t && j in t && i != j :: !HashesClash(t, i, j)
  {
  }

  lemma ClashIsTheConstraint(c: Crypto, nonce: Nonces, t: Table, op: Op)
    requires Sound(c) && CleanEverywhere(op) && TableAgrees(c, t)
    ensures Unique(Next(c, nonce, t, op)) <==> !Clash(c, t, op)
  {
    var next := Next(c, nonce, t, op);
    NextAgrees(c, nonce, t, op);
    UniqueMeans(next);
    if Clash(c, t, op) {
      var i, j :| i in RowsThen(t, op) && j in RowsThen(t, op) && i != j && SameId(c, t, op, i, j);
      SameIdIsSameHash(c, nonce, t, op, i, j);
    }
    forall i, j | i in next && j in next && i != j && !Clash(c, t, op)
      ensures !HashesClash(next, i, j)
    {
      NextReads(c, nonce, t, op, i, IdNumber);
      NextReads(c, nonce, t, op, j, IdNumber);
      SameIdIsSameHash(c, nonce, t, op, i, j);
    }
  }

  /**
   * Exactly what a clean write does: nothing if it would give two rows of an organisation one national
   * id; otherwise every row reads as it was given, column by column, and as before where it was not.
   */
  lemma WritesTakeEffectExactly(c: Crypto, nonce: Nonces, t: Table, op: Op, id: Id, field: Column)
    requires Sound(c) && CleanEverywhere(op) && TableAgrees(c, t) && field in FIELDS
    ensures var after := Apply(c, nonce, t, op);
            if Clash(c, t, op) then after == t
            else (id in after <==> id in RowsThen(t, op))
                 && (id in after ==> after[id].tenant == TenantThen(t, op, id)
                                     && Reads(c, after[id], field) == ReadsThen(c, t, op, id, field))
  {
    ClashIsTheConstraint(c, nonce, t, op);
    NextReads(c, nonce, t, op, id, field);
  }

  // ── What a run leaves in the table ────────────────────────────────────────

  predicate WrapsNothing(op: Op, field: Column) {
    match op
    case Insert(rows) => forall id | id in rows :: !Wraps(rows[id].1, field)
    case Modify(_, data) => !Wraps(data, field)
    case Upsert(_, _, create, update) => !Wraps(create, field) && !Wraps(update, field)
  }

  ghost predicate NoneInClear(t: Table, field: Column) {
    forall id | id in t :: !InClear(Get(t[id], field))
  }

  lemma OpKeepsSealed(c: Crypto, nonce: Nonces, t: Table, op: Op, field: Column)
    requires Sound(c) && field in {IdNumber, Phone, Address, Email} && WrapsNothing(op, field) && NoneInClear(t, field)
    ensures NoneInClear(Apply(c, nonce, t, op), field)
  {
    var next := Next(c, nonce, t, op);
    forall id | id in next
      ensures !InClear(Get(next[id], field))
    {
      match op {
        case Insert(rows) =>
          if id !in t {
            InClearExactly(c, k => nonce(id, k), rows[id].1, Blank(rows[id].0), field);
          }
        case Modify(_, data) => InClearExactly(c, k => nonce("", k), data, t[id], field);
        case Upsert(at, tenant, create, update) =>
          InClearExactly(c, k => nonce(id, k), create, Blank(tenant), field);
          if id in t {
            InClearExactly(c, k => nonce(id, k), update, t[id], field);
          }
      }
    }
  }

  /** Over any run of creates, updates, upserts and bulk writes of unwrapped values, a column never holds a text in clear. */
  lemma {:induction false} RunKeepsSealed(c: Crypto, nonces: nat -> Nonces, t: Table, ops: seq<Op>, field: Column)
    requires Sound(c) && field in {IdNumber, Phone, Address, Email} && NoneInClear(t, field)
    requires forall op | op in ops :: WrapsNothing(op, field)
    ensures NoneInClear(Run(c, nonces, t, ops), field)
    decreases |ops|
  {
    if ops != [] {
      OpKeepsSealed(c, nonces(|ops|), t, ops[0], field);
      RunKeepsSealed(c, nonces, Apply(c, nonces(|ops|), t, ops[0]), ops[1..], field);
    }
  }

  /** Rows whose index matches the query's. */
  function FindBy(c: Crypto, t: Table, sp: Spec, query: string): set<Id>
    requires sp in HASHED
  {
    set id | id in t && Get(t[id], sp.hash.value) == Index(c, Some(query), sp.kind)
  }

  /** A lookup returns exactly the rows whose normalised plaintext equals the normalised query. */
  lemma LookupIsExact(c: Crypto, t: Table, sp: Spec, query: string, id: Id)
    requires Sound(c) && TableAgrees(c, t) && sp in HASHED && query != "" && id in t
    ensures id in FindBy(c, t, sp, query) <==>
            var plain := Reads(c, t[id], sp.field).value;
            plain.Some? && plain.value != "" && Normalise(plain.value, sp.kind) == Normalise(query, sp.kind)
  {
    assert Agrees(c, t[id], sp);
  }

  // ── What normalising does to a character ──────────────────────────────────

  /**
   * The white space of ECMA-262 (section 12.2 and 12.3), by code point, and what else a phone number
   * may be written with.
   */
  lemma DroppedByCode(ch: char)
    ensures var code := ch as int;
            && (IsSpace(ch) <==> 9 <= code <= 13 || 0x2000 <= code <= 0x200A
                                 || code in {0x20, 0xA0, 0x1680, 0x2028, 0x2029, 0x202F, 0x205F, 0x3000, 0xFEFF})
            && (Dropped(ch) <==> IsSpace(ch) || code in {0x28, 0x29, 0x2D})
  {
  }

  /** Letters a to z become capitals, and nothing else changes. */
  lemma UpperByLetter(v: string, i: nat)
    requires i < |v|
    ensures |Upper(v)| == |v|
    ensures if 'a' <= v[i] <= 'z' then Upper(v)[i] as int - 'A' as int == v[i] as int - 'a' as int && 'A' <= Upper(v)[i] <= 'Z'
            else Upper(v)[i] == v[i]
  {
  }

  // ── Normalising twice ─────────────────────────────────────────────────────

  /** A phone keeps its characters in order, part by part. */
  lemma {:induction false} StripOfParts(a: string, b: string)
    ensures Strip(a + b) == Strip(a) + Strip(b)
  {
    if a == "" {
      assert a + b == b && Strip(a) + Strip(b) == Strip(b);
    } else {
      StripOfParts(a[1..], b);
      assert (a + b)[1..] == a[1..] + b && (a + b)[0] == a[0];
      var head := if Dropped(a[0]) then "" else [a[0]];
      assert head + (Strip(a[1..]) + Strip(b)) == (head + Strip(a[1..])) + Strip(b);
    }
  }

  predicate NoneDropped(v: string) {
    forall i | 0 <= i < |v| :: !Dropped(v[i])
  }

  /** What is left has nothing to drop, and a text with nothing to drop is left as it is. */
  lemma {:induction false} StripDropsExactly(v: string)
    ensures NoneDropped(Strip(v))
    ensures NoneDropped(v) ==> Strip(v) == v
  {
    if v != "" {
      StripDropsExactly(v[1..]);
      if NoneDropped(v) {
        assert NoneDropped(v[1..]);
        assert v == [v[0]] + v[1..];
      }
    }
  }

  lemma StripTwice(v: string)
    ensures Strip(Strip(v)) == Strip(v)
  {
    StripDropsExactly(v);
    StripDropsExactly(Strip(v));
  }

  predicate Trimmed(v: string) {
    v == "" || (!IsSpace(v[0]) && !IsSpace(v[|v| - 1]))
  }

  lemma {:induction false} TrimRightKeepsStart(v: string)
    requires v != "" && !IsSpace(v[0])
    ensures TrimRight(v) != "" && TrimRight(v)[0] == v[0] && !IsSpace(TrimRight(v)[|TrimRight(v)| - 1])
  {
    if IsSpace(v[|v| - 1]) {
      TrimRightKeepsStart(v[..|v| - 1]);
    }
  }

  lemma {:induction false} TrimLeftStarts(v: string)
    ensures TrimLeft(v) == "" || !IsSpace(TrimLeft(v)[0])
  {
    if v != "" && IsSpace(v[0]) {
      TrimLeftStarts(v[1..]);
    }
  }

  lemma TrimTrims(v: string)
    ensures Trimmed(Trim(v))
  {
    TrimLeftStarts(v);
    if TrimLeft(v) != "" {
      TrimRightKeepsStart(TrimLeft(v));
    }
  }

  lemma UpperKeepsSpace(ch: char)
    ensures IsSpace(UpperChar(ch)) <==> IsSpace(ch)
  {
  }

  predicate AllSpace(v: string) {
    forall i | 0 <= i < |v| :: IsSpace(v[i])
  }

  lemma {:induction false} TrimLeftCuts(v: string) returns (i: nat)
    ensures i <= |v| && TrimLeft(v) == v[i..] && AllSpace(v[..i])
  {
    if v != "" && IsSpace(v[0]) {
      var k := TrimLeftCuts(v[1..]);
      i := k + 1;
      assert v[1..][k..] == v[i..] && v[..i] == [v[0]] + v[1..][..k];
    } else {
      i := 0;
    }
  }

  lemma {:induction false} TrimRightCuts(v: string) returns (k: nat)
    ensures k <= |v| && TrimRight(v) == v[..k] && AllSpace(v[k..])
  {
    if v != "" && IsSpace(v[|v| - 1]) {
      var front := v[..|v| - 1];
      k := TrimRightCuts(front);
      assert front[..k] == v[..k] && v[k..] == front[k..] + [v[|v| - 1]];
    } else {
      k := |v|;
    }
  }

  /** Trimming cuts off blanks at both ends and nothing else. */
  lemma TrimCutsOnlySpace(v: string) returns (i: nat, j: nat)
    ensures i <= j <= |v| && Trim(v) == v[i..j] && AllSpace(v[..i]) && AllSpace(v[j..])
  {
    i := TrimLeftCuts(v);
    var k := TrimRightCuts(v[i..]);
    j := i + k;
    assert v[i..][..k] == v[i..j] && v[i..][k..] == v[j..];
  }

  /** Normalising a normalised text changes nothing, so either form of a query finds the same rows. */
  lemma NormaliseTwice(v: string, kind: Kind)
    ensures Normalise(Normalise(v, kind), kind) == Normalise(v, kind)
  {
    StripTwice(v);
    TrimTrims(v);
    var w := Trim(v);
    if w != "" {
      UpperKeepsSpace(w[0]);
      UpperKeepsSpace(w[|w| - 1]);
    }
    assert Trim(Upper(w)) == Upper(w);
    assert Upper(Upper(w)) == Upper(w);
  }
}
