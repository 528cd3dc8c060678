/** What every query result goes through: any sealed text in it, however deep, is decrypted. */
module DecryptedReads {
  import opened Wrappers
  import opened BlindIndex

  /** A query result. `Other` is a number, a boolean, a date, a buffer or a decimal. */
  datatype Json =
    | Nothing
    | Str(text: string)
    | Arr(items: seq<Json>)
    | Obj(keys: seq<string>, values: seq<Json>)
    | Other(value: string)

  /** None when a sealed text in it does not unseal: the read throws. */
  function Opened(c: Crypto, v: Json): Option<Json> {
    match v
    case Str(s) =>
      (match Decrypt(c, s)
       case None => None
       case Some(plain) => Some(Str(plain)))
    case Arr(items) =>
      (match OpenedAll(c, items)
       case None => None
       case Some(texts) => Some(Arr(texts)))
    case Obj(keys, values) =>
      (match OpenedAll(c, values)
       case None => None
       case Some(texts) => Some(Obj(keys, texts)))
    case _ => Some(v)
  }

  function OpenedAll(c: Crypto, vs: seq<Json>): (r: Option<seq<Json>>)
    ensures r.Some? ==> |r.value| == |vs|
  {
    if vs == [] then Some([])
    else
      match Opened(c, vs[0])
      case None => None
      case Some(first) =>
        match OpenedAll(c, vs[1..])
        case None => None
        case Some(rest) => Some([first] + rest)
  }

  /** Overwrites elements one by one, as they are reached. */
  method DecryptDeep(c: Crypto, v: Json) returns (r: Option<Json>)
    ensures r == Opened(c, v)
  {
    match v {
      case Str(s) =>
        var plain := Decrypt(c, s);
        return if plain.None? then None else Some(Str(plain.value));
      case Arr(items) =>
        var texts := DecryptAll(c, items);
        return if texts.None? then None else Some(Arr(texts.value));
      case Obj(keys, values) =>
        var texts := DecryptAll(c, values);
        return if texts.None? then None else Some(Obj(keys, texts.value));
      case _ => return Some(v);
    }
  }

  method DecryptAll(c: Crypto, vs: seq<Json>) returns (r: Option<seq<Json>>)
    ensures r == OpenedAll(c, vs)
  {
    var out := vs;
    var i := 0;
    assert vs[0..] == vs && OpenedAll(c, vs) == Prepend([], OpenedAll(c, vs)) by {
      if OpenedAll(c, vs).Some? {
        assert [] + OpenedAll(c, vs).value == OpenedAll(c, vs).value;
      }
    }
    while i < |vs|
      invariant i <= |vs| == |out| && out[i..] == vs[i..]
      invariant OpenedAll(c, vs) == Prepend(out[..i], OpenedAll(c, vs[i..]))
    {
      var next := DecryptDeep(c, out[i]);
      assert out[i] == out[i..][0] && vs[i] == vs[i..][0] && vs[i..][1..] == vs[i + 1..];
      if next.None? {
        return None;
      }
      PrependOne(out[..i], next.value, OpenedAll(c, vs[i + 1..]));
      ghost var before := out;
      out := out[i := next.value];
      assert out[..i + 1] == before[..i] + [next.value];
      assert out[i + 1..] == before[i..][1..];
      i := i + 1;
    }
    assert vs[i..] == [] && out[..i] == out && out + [] == out;
    return Some(out);
  }

  function Prepend(front: seq<Json>, rest: Option<seq<Json>>): Option<seq<Json>> {
    if rest.None? then None else Some(front + rest.value)
  }

  lemma PrependOne(front: seq<Json>, one: Json, rest: Option<seq<Json>>)
    ensures Prepend(front, Prepend([one], rest)) == Prepend(front + [one], rest)
  {
    if rest.Some? {
      assert front + ([one] + rest.value) == front + [one] + rest.value;
    }
  }

  /** `stored` is `plain` with any of its texts encrypted; texts that look sealed themselves are not stored. */
  ghost predicate Hides(c: Crypto, stored: Json, plain: Json)
    decreases plain
  {
    match plain
    case Str(p) => stored.Str? && !IsEncrypted(p) && (stored.text == p || exists n :: stored.text == Encrypt(c, p, n))
    case Arr(ps) => stored.Arr? && HidesAll(c, stored.items, ps)
    case Obj(keys, ps) => stored.Obj? && stored.keys == keys && HidesAll(c, stored.values, ps)
    case _ => stored == plain
  }

  ghost predicate HidesAll(c: Crypto, stored: seq<Json>, plain: seq<Json>)
    decreases plain
  {
    |stored| == |plain| && forall i | 0 <= i < |plain| :: Hides(c, stored[i], plain[i])
  }

  /** Reads give back exactly what was stored in the clear or encrypted, at every depth, and nothing else changes. */
  lemma {:induction false} ReadsOpenEverything(c: Crypto, stored: Json, plain: Json)
    requires Sound(c) && Hides(c, stored, plain)
    ensures Opened(c, stored) == Some(plain)
    decreases plain, 1
  {
    match plain
    case Str(p) =>
      if stored.text != p {
        var n :| stored.text == Encrypt(c, p, n);
        DecryptInvertsEncrypt(c, p, n);
      }
    case Arr(ps) => ReadsOpenAll(c, stored.items, ps);
    case Obj(_, ps) => ReadsOpenAll(c, stored.values, ps);
    case _ =>
  }

  lemma {:induction false} ReadsOpenAll(c: Crypto, stored: seq<Json>, plain: seq<Json>)
    requires Sound(c) && HidesAll(c, stored, plain)
    ensures OpenedAll(c, stored) == Some(plain)
    decreases plain, 0
  {
    if plain != [] {
      assert Hides(c, stored[0], plain[0]);
      ReadsOpenEverything(c, stored[0], plain[0]);
      ReadsOpenAll(c, stored[1..], plain[1..]);
      assert [plain[0]] + plain[1..] == plain;
    }
  }
}
