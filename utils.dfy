/** kodi_game_scripting/utils.py: `purify`, `xstr` and `list_all_files`. */
module Utils {
  import opened Wrappers
  import opened Text

  // ===========================================================================
  // purify

  /** The container types `purify` distinguishes among sequences. A set is modelled by
      its iteration order. */
  datatype SeqKind = ListKind | TupleKind | SetKind

  /** The JSON-like Python values `purify` is applied to (what xmljson produces). A dict
      remembers whether it is an `OrderedDict`, since `type(obj)(...)` rebuilds the same type. */
  datatype Value =
    | NoneValue
    | Bool(b: bool)
    | Int(i: int)
    | Str(s: string)
    | Sequence(kind: SeqKind, items: seq<Value>)
    | Dict(ordered: bool, entries: seq<Entry>)

  datatype Entry = Entry(key: string, val: Value)

  /** `_is_not_empty`: the value is not equal to `[]`, `{}`, `()` or `None`. An empty set
      differs from all four (and is dropped by the truthiness test instead). */
  predicate IsNotEmpty(v: Value) {
    match v
    case NoneValue => false
    case Sequence(k, items) => !(items == [] && (k == ListKind || k == TupleKind))
    case Dict(_, es) => es != []
    case _ => true
  }

  /** Python truthiness. */
  predicate Truthy(v: Value) {
    match v
    case NoneValue => false
    case Bool(b) => b
    case Int(i) => i != 0
    case Str(s) => s != ""
    case Sequence(_, items) => items != []
    case Dict(_, es) => es != []
  }

  /** The condition under which an element or entry survives `purify`. */
  predicate Keep(v: Value) {
    IsNotEmpty(v) && Truthy(Purify(v))
  }

  /** Same Python type at the top: scalars equal, containers of the same kind. */
  predicate SameType(a: Value, b: Value) {
    match a
    case Sequence(k, _) => b.Sequence? && b.kind == k
    case Dict(o, _) => b.Dict? && b.ordered == o
    case _ => b == a
  }

  /** No element at any depth is falsy (and therefore none is `None` or an empty container). */
  predicate Clean(v: Value) {
    match v
    case Sequence(_, items) => forall i :: 0 <= i < |items| ==> Truthy(items[i]) && Clean(items[i])
    case Dict(_, es) => forall i :: 0 <= i < |es| ==> Truthy(es[i].val) && Clean(es[i].val)
    case _ => true
  }

  function Purify(v: Value): (r: Value)
    ensures SameType(v, r) && Clean(r)
    decreases v, 1
  {
    match v
    case Sequence(k, items) => Sequence(k, PurifyItems(v, 0))
    case Dict(o, es) => Dict(o, PurifyEntries(v, 0))
    case _ => v
  }

  /** The generator `(purify(v) for v in obj if ...)` over `obj.items[i..]`. */
  function PurifyItems(v: Value, i: nat): (r: seq<Value>)
    requires v.Sequence? && i <= |v.items|
    ensures forall j :: 0 <= j < |r| ==> Truthy(r[j]) && Clean(r[j])
    decreases v, 0, |v.items| - i
  {
    if i == |v.items| then []
    else
      assert v.items[i] in v.items;
      var x := v.items[i];
      (if IsNotEmpty(x) && Truthy(Purify(x)) then [Purify(x)] else []) + PurifyItems(v, i + 1)
  }

  /** The generator `((k, purify(v)) for k, v in obj.items() if ...)` over entries `i..`. */
  function PurifyEntries(v: Value, i: nat): (r: seq<Entry>)
    requires v.Dict? && i <= |v.entries|
    ensures forall j :: 0 <= j < |r| ==> Truthy(r[j].val) && Clean(r[j].val)
    decreases v, 0, |v.entries| - i
  {
    if i == |v.entries| then []
    else
      assert v.entries[i] in v.entries;
      var e := v.entries[i];
      (if IsNotEmpty(e.val) && Truthy(Purify(e.val)) then [Entry(e.key, Purify(e.val))] else [])
      + PurifyEntries(v, i + 1)
  }

  /** What survives of a list of elements, element by element. */
  function Survivors(items: seq<Value>): seq<Value> {
    if items == [] then []
    else (if Keep(items[0]) then [Purify(items[0])] else []) + Survivors(items[1..])
  }

  function SurvivingEntries(es: seq<Entry>): seq<Entry> {
    if es == [] then []
    else (if Keep(es[0].val) then [Entry(es[0].key, Purify(es[0].val))] else [])
         + SurvivingEntries(es[1..])
  }

  lemma {:induction false} PurifyItemsIsSurvivors(v: Value, i: nat)
    requires v.Sequence? && i <= |v.items|
    ensures PurifyItems(v, i) == Survivors(v.items[i..])
    decreases |v.items| - i
  {
    if i < |v.items| {
      PurifyItemsIsSurvivors(v, i + 1);
      assert v.items[i..][1..] == v.items[i + 1..];
    }
  }

  lemma {:induction false} PurifyEntriesIsSurviving(v: Value, i: nat)
    requires v.Dict? && i <= |v.entries|
    ensures PurifyEntries(v, i) == SurvivingEntries(v.entries[i..])
    decreases |v.entries| - i
  {
    if i < |v.entries| {
      PurifyEntriesIsSurviving(v, i + 1);
      assert v.entries[i..][1..] == v.entries[i + 1..];
    }
  }

  lemma {:induction false} SurvivorsAppend(a: seq<Value>, b: seq<Value>)
    ensures Survivors(a + b) == Survivors(a) + Survivors(b)
  {
    if a != [] {
      assert (a + b)[0] == a[0];
      assert (a + b)[1..] == a[1..] + b;
      SurvivorsAppend(a[1..], b);
    } else {
      assert a + b == b;
    }
  }

  lemma {:induction false} SurvivingEntriesAppend(a: seq<Entry>, b: seq<Entry>)
    ensures SurvivingEntries(a + b) == SurvivingEntries(a) + SurvivingEntries(b)
  {
    if a != [] {
      assert (a + b)[0] == a[0];
      assert (a + b)[1..] == a[1..] + b;
      SurvivingEntriesAppend(a[1..], b);
    } else {
      assert a + b == b;
    }
  }

  /** For a list, tuple or set: the container type is kept and the elements that survive
      are the purified elements satisfying the keep rule, in their original order (purify
      distributes over concatenation and acts on one element as the keep rule says). */
  lemma PurifySequence(k: SeqKind, a: seq<Value>, b: seq<Value>, x: Value)
    ensures Purify(Sequence(k, a + b)) == Sequence(k, Purify(Sequence(k, a)).items + Purify(Sequence(k, b)).items)
    ensures Purify(Sequence(k, [x])) == Sequence(k, if Keep(x) then [Purify(x)] else [])
  {
    PurifyItemsIsSurvivors(Sequence(k, a + b), 0);
    PurifyItemsIsSurvivors(Sequence(k, a), 0);
    PurifyItemsIsSurvivors(Sequence(k, b), 0);
    PurifyItemsIsSurvivors(Sequence(k, [x]), 0);
    assert (a + b)[0..] == a + b && a[0..] == a && b[0..] == b && [x][0..] == [x];
    SurvivorsAppend(a, b);
  }

  /** For a dict: dict type and key order are kept, and an entry survives, holding its
      purified value, exactly when its value satisfies the keep rule. */
  lemma PurifyDict(o: bool, a: seq<Entry>, b: seq<Entry>, key: string, x: Value)
    ensures Purify(Dict(o, a + b)) == Dict(o, Purify(Dict(o, a)).entries + Purify(Dict(o, b)).entries)
    ensures Purify(Dict(o, [Entry(key, x)])) == Dict(o, if Keep(x) then [Entry(key, Purify(x))] else [])
  {
    PurifyEntriesIsSurviving(Dict(o, a + b), 0);
    PurifyEntriesIsSurviving(Dict(o, a), 0);
    PurifyEntriesIsSurviving(Dict(o, b), 0);
    PurifyEntriesIsSurviving(Dict(o, [Entry(key, x)]), 0);
    assert (a + b)[0..] == a + b && a[0..] == a && b[0..] == b && [Entry(key, x)][0..] == [Entry(key, x)];
    SurvivingEntriesAppend(a, b);
  }

  /** The two tests of the keep rule collapse into one: a value survives exactly when its
      purified form is truthy (`[]`, `{}`, `()` and `None` all purify to falsy values). */
  lemma KeepIffTruthy(x: Value)
    ensures Keep(x) <==> Truthy(Purify(x))
  {
    if x.Sequence? {
      PurifyItemsIsSurvivors(x, 0);
      assert x.items[0..] == x.items;
    }
    if x.Dict? {
      PurifyEntriesIsSurviving(x, 0);
      assert x.entries[0..] == x.entries;
    }
  }

  /** Scalars come back unchanged. */
  lemma PurifyScalar(v: Value)
    requires !v.Sequence? && !v.Dict?
    ensures Purify(v) == v
  {
  }

  /** A value with nothing to strip is left alone. */
  lemma {:induction false} PurifyClean(v: Value)
    requires Clean(v)
    ensures Purify(v) == v
    decreases v, 1
  {
    match v
    case Sequence(k, items) =>
      PurifyItemsClean(v, 0);
      assert items[0..] == items;
    case Dict(o, es) =>
      PurifyEntriesClean(v, 0);
      assert es[0..] == es;
    case _ =>
  }

  lemma {:induction false} PurifyItemsClean(v: Value, i: nat)
    requires v.Sequence? && Clean(v) && i <= |v.items|
    ensures PurifyItems(v, i) == v.items[i..]
    decreases v, 0, |v.items| - i
  {
    if i < |v.items| {
      var x := v.items[i];
      assert x in v.items;
      PurifyClean(x);
      assert IsNotEmpty(x);
      PurifyItemsClean(v, i + 1);
      assert v.items[i..] == [x] + v.items[i + 1..];
    }
  }

  lemma {:induction false} PurifyEntriesClean(v: Value, i: nat)
    requires v.Dict? && Clean(v) && i <= |v.entries|
    ensures PurifyEntries(v, i) == v.entries[i..]
    decreases v, 0, |v.entries| - i
  {
    if i < |v.entries| {
      var e := v.entries[i];
      assert e in v.entries;
      PurifyClean(e.val);
      assert IsNotEmpty(e.val);
      PurifyEntriesClean(v, i + 1);
      assert v.entries[i..] == [Entry(e.key, e.val)] + v.entries[i + 1..];
    }
  }

  /** `purify` is idempotent. */
  lemma PurifyIdempotent(v: Value)
    ensures Purify(Purify(v)) == Purify(v)
  {
    PurifyClean(Purify(v));
  }

  /** The cases exercised by the unit tests of `purify`. */
  lemma PurifyExampleList()
    ensures Purify(Sequence(ListKind, [Str("test"), Sequence(ListKind, [NoneValue, NoneValue])]))
         == Sequence(ListKind, [Str("test")])
  {
    var inner := Sequence(ListKind, [NoneValue, NoneValue]);
    PurifySequence(ListKind, [NoneValue], [NoneValue], NoneValue);
    assert [NoneValue] + [NoneValue] == [NoneValue, NoneValue];
    assert Purify(inner) == Sequence(ListKind, []);
    PurifySequence(ListKind, [Str("test")], [inner], Str("test"));
    PurifySequence(ListKind, [], [inner], inner);
    assert [Str("test")] + [inner] == [Str("test"), inner];
  }

  lemma PurifyExampleNestedDict(k1: string, k2: string, k3: string, s: string)
    requires s != ""
    ensures Purify(Dict(false, [Entry(k1, Dict(false, [Entry(k2, Str(s))])), Entry(k3, Dict(false, []))]))
         == Dict(false, [Entry(k1, Dict(false, [Entry(k2, Str(s))]))])
  {
    var l1 := Dict(false, [Entry(k2, Str(s))]);
    var l3 := Dict(false, []);
    PurifyScalar(Str(s));
    assert Keep(Str(s));
    PurifyDict(false, [], [], k2, Str(s));
    assert Purify(l1) == l1;
    assert Keep(l1) && !Keep(l3);
    PurifyDict(false, [Entry(k1, l1)], [Entry(k3, l3)], k1, l1);
    PurifyDict(false, [], [], k3, l3);
    assert Purify(Dict(false, [Entry(k1, l1)])).entries + Purify(Dict(false, [Entry(k3, l3)])).entries == [Entry(k1, l1)];
    assert [Entry(k1, l1)] + [Entry(k3, l3)] == [Entry(k1, l1), Entry(k3, l3)];
  }

  lemma PurifyExampleAllEmpty()
    ensures Purify(Dict(false, [Entry("l1", Sequence(ListKind, [Dict(false, []), Dict(false, [])])), Entry("l2", Dict(false, []))]))
         == Dict(false, [])
  {
    var e := Dict(false, []);
    var twoEmpty := Sequence(ListKind, [e, e]);
    PurifySequence(ListKind, [e], [e], e);
    assert [e] + [e] == [e, e];
    assert Purify(twoEmpty) == Sequence(ListKind, []);
    PurifyDict(false, [Entry("l1", twoEmpty)], [Entry("l2", e)], "l1", twoEmpty);
    PurifyDict(false, [], [], "l2", e);
    assert [Entry("l1", twoEmpty)] + [Entry("l2", e)] == [Entry("l1", twoEmpty), Entry("l2", e)];
  }

  // ===========================================================================
  // xstr

  type byte = x: int | 0 <= x < 256

  predicate IsContinuation(b: int) { 0x80 <= b < 0xC0 }

  /** The strict UTF-8 decoder behind `str(b, 'utf-8')`: it rejects overlong forms,
      surrogates, code points above U+10FFFF and truncated sequences. */
  function DecodeUtf8(bs: seq<byte>): (r: Option<string>)
    decreases |bs|
  {
    if bs == [] then Some("")
    else
      match DecodeFirst(bs)
      case None => None
      case Some((c, n)) =>
        match DecodeUtf8(bs[n..])
        case None => None
        case Some(rest) => Some([c] + rest)
  }

  /** The first scalar value of `bs` and the number of bytes it occupies. */
  function DecodeFirst(bs: seq<byte>): (r: Option<(char, nat)>)
    requires bs != []
    ensures r.Some? ==> 1 <= r.value.1 <= |bs|
  {
    var b0: int := bs[0];
    var b1: int := if |bs| > 1 then bs[1] else 0;
    var b2: int := if |bs| > 2 then bs[2] else 0;
    var b3: int := if |bs| > 3 then bs[3] else 0;
    if b0 < 0x80 then Some((b0 as char, 1))
    else if 0xC2 <= b0 <= 0xDF then
      if |bs| >= 2 && IsContinuation(b1) then
        Some((((b0 - 0xC0) * 64 + (b1 - 0x80)) as char, 2))
      else None
    else if 0xE0 <= b0 <= 0xEF then
      var lo := if b0 == 0xE0 then 0xA0 else 0x80;
      var hi := if b0 == 0xED then 0xA0 else 0xC0;
      if |bs| >= 3 && lo <= b1 < hi && IsContinuation(b2) then
        var cp := (b0 - 0xE0) * 4096 + (b1 - 0x80) * 64 + (b2 - 0x80);
        assert cp < 0xD800 || 0xE000 <= cp;
        Some((cp as char, 3))
      else None
    else if 0xF0 <= b0 <= 0xF4 then
      var lo := if b0 == 0xF0 then 0x90 else 0x80;
      var hi := if b0 == 0xF4 then 0x90 else 0xC0;
      if |bs| >= 4 && lo <= b1 < hi && IsContinuation(b2) && IsContinuation(b3) then
        var cp := (b0 - 0xF0) * 262144 + (b1 - 0x80) * 4096 + (b2 - 0x80) * 64 + (b3 - 0x80);
        Some((cp as char, 4))
      else None
    else None
  }

  /** UTF-8 encoding of one scalar value. */
  function EncodeChar(c: char): (r: seq<byte>)
    ensures 1 <= |r| <= 4
  {
    var cp := c as int;
    if cp < 0x80 then [cp]
    else if cp < 0x800 then [0xC0 + cp / 64, 0x80 + cp % 64]
    else if cp < 0x10000 then [0xE0 + cp / 4096, 0x80 + (cp / 64) % 64, 0x80 + cp % 64]
    else [0xF0 + cp / 262144, 0x80 + (cp / 4096) % 64, 0x80 + (cp / 64) % 64, 0x80 + cp % 64]
  }

  function EncodeUtf8(s: string): seq<byte> {
    if s == [] then [] else EncodeChar(s[0]) + EncodeUtf8(s[1..])
  }

  lemma DecodeTwo(c: char, rest: seq<byte>)
    requires 0x80 <= c as int < 0x800
    ensures DecodeFirst(EncodeChar(c) + rest) == Some((c, 2))
  {
    var cp := c as int;
    var bs: seq<int> := EncodeChar(c) + rest;
    assert bs[0] == 0xC0 + cp / 64 && bs[1] == 0x80 + cp % 64;
  }

  lemma DecodeThree(c: char, rest: seq<byte>)
    requires 0x800 <= c as int < 0x10000
    ensures DecodeFirst(EncodeChar(c) + rest) == Some((c, 3))
  {
    var cp := c as int;
    var bs: seq<int> := EncodeChar(c) + rest;
    var q := cp / 64;
    assert cp == q * 64 + cp % 64;
    assert q == (q / 64) * 64 + q % 64;
    assert cp / 4096 == q / 64;
    assert bs[0] == 0xE0 + q / 64 && bs[1] == 0x80 + q % 64 && bs[2] == 0x80 + cp % 64;
  }

  lemma DecodeFour(c: char, rest: seq<byte>)
    requires 0x10000 <= c as int
    ensures DecodeFirst(EncodeChar(c) + rest) == Some((c, 4))
  {
    var cp := c as int;
    var bs: seq<int> := EncodeChar(c) + rest;
    var q := cp / 64;
    var q2 := q / 64;
    assert cp == q * 64 + cp % 64;
    assert q == q2 * 64 + q % 64;
    assert q2 == (q2 / 64) * 64 + q2 % 64;
    assert cp / 4096 == q2;
    assert cp / 262144 == q2 / 64;
    assert bs[0] == 0xF0 + q2 / 64 && bs[1] == 0x80 + q2 % 64;
    assert bs[2] == 0x80 + q % 64 && bs[3] == 0x80 + cp % 64;
  }

  lemma DecodeFirstEncodeChar(c: char, rest: seq<byte>)
    ensures DecodeFirst(EncodeChar(c) + rest) == Some((c, |EncodeChar(c)|))
  {
    var cp := c as int;
    if cp < 0x80 {
    } else if cp < 0x800 {
      DecodeTwo(c, rest);
    } else if cp < 0x10000 {
      DecodeThree(c, rest);
    } else {
      DecodeFour(c, rest);
    }
  }

  /** Decoding undoes encoding: every string survives a UTF-8 round trip. */
  lemma {:induction false} DecodeEncode(s: string)
    ensures DecodeUtf8(EncodeUtf8(s)) == Some(s)
  {
    if s != [] {
      var bs := EncodeUtf8(s);
      DecodeFirstEncodeChar(s[0], EncodeUtf8(s[1..]));
      assert bs[|EncodeChar(s[0])|..] == EncodeUtf8(s[1..]);
      DecodeEncode(s[1..]);
      assert s == [s[0]] + s[1..];
    }
  }

  /** The bytes a decoded scalar value came from are its encoding. */
  lemma EncodeDecodedFirst(bs: seq<byte>)
    requires bs != [] && DecodeFirst(bs).Some?
    ensures EncodeChar(DecodeFirst(bs).value.0) == bs[..DecodeFirst(bs).value.1]
  {
    var b0: int := bs[0];
    if b0 < 0x80 {
    } else if 0xC2 <= b0 <= 0xDF {
      EncodeTwoBytes(bs);
    } else if 0xE0 <= b0 <= 0xEF {
      EncodeThreeBytes(bs);
    } else {
      EncodeFourBytes(bs);
    }
  }

  lemma EncodeTwoBytes(bs: seq<byte>)
    requires |bs| >= 2 && 0xC2 <= bs[0] <= 0xDF && IsContinuation(bs[1])
    ensures DecodeFirst(bs).Some? && EncodeChar(DecodeFirst(bs).value.0) == bs[..2]
  {
    var cp: int := (bs[0] as int - 0xC0) * 64 + (bs[1] as int - 0x80);
    assert cp / 64 == bs[0] - 0xC0 && cp % 64 == bs[1] - 0x80;
  }

  lemma EncodeThreeBytes(bs: seq<byte>)
    requires |bs| >= 3 && 0xE0 <= bs[0] <= 0xEF && DecodeFirst(bs).Some?
    ensures DecodeFirst(bs).value.1 == 3 && EncodeChar(DecodeFirst(bs).value.0) == bs[..3]
  {
    var x: int, y: int, z: int := bs[0] as int - 0xE0, bs[1] as int - 0x80, bs[2] as int - 0x80;
    var cp: int := x * 4096 + y * 64 + z;
    assert 0 <= y < 64 && 0 <= z < 64;
    assert cp / 4096 == x && (cp / 64) % 64 == y && cp % 64 == z by {
      assert cp == (x * 64 + y) * 64 + z;
      assert cp / 64 == x * 64 + y;
    }
  }

  lemma EncodeFourBytes(bs: seq<byte>)
    requires |bs| >= 4 && 0xF0 <= bs[0] <= 0xF4 && DecodeFirst(bs).Some?
    ensures DecodeFirst(bs).value.1 == 4 && EncodeChar(DecodeFirst(bs).value.0) == bs[..4]
  {
    var w: int, x: int, y: int, z: int := bs[0] as int - 0xF0, bs[1] as int - 0x80, bs[2] as int - 0x80, bs[3] as int - 0x80;
    var cp: int := w * 262144 + x * 4096 + y * 64 + z;
    assert 0 <= x < 64 && 0 <= y < 64 && 0 <= z < 64;
    assert cp / 262144 == w && (cp / 4096) % 64 == x && (cp / 64) % 64 == y && cp % 64 == z by {
      assert cp == ((w * 64 + x) * 64 + y) * 64 + z;
      assert cp / 64 == (w * 64 + x) * 64 + y;
      assert cp / 4096 == w * 64 + x;
    }
  }

  lemma EncodeCons(c: char, s: string)
    ensures EncodeUtf8([c] + s) == EncodeChar(c) + EncodeUtf8(s)
  {
    assert ([c] + s)[1..] == s;
  }

  /** Encoding undoes decoding: bytes that decode are the encoding of what they decode to. */
  lemma {:induction false} EncodeDecode(bs: seq<byte>)
    ensures DecodeUtf8(bs).Some? ==> EncodeUtf8(DecodeUtf8(bs).value) == bs
    decreases |bs|
  {
    if bs != [] && DecodeUtf8(bs).Some? {
      var (c, n) := DecodeFirst(bs).value;
      var tail := DecodeUtf8(bs[n..]).value;
      EncodeDecodedFirst(bs);
      EncodeDecode(bs[n..]);
      EncodeCons(c, tail);
      assert bs == bs[..n] + bs[n..];
    }
  }

  datatype DecodeError = UnicodeDecodeError

  /** `xstr`: `None` becomes the empty string, bytes are decoded as UTF-8 (raising on
      malformed input). */
  function Xstr(b: Option<seq<byte>>): (r: Result<string, DecodeError>)
    ensures b.None? ==> r == Ok("")
    ensures b.Some? ==> (r.Ok? <==> DecodeUtf8(b.value).Some?)
    ensures forall s: string :: b == Some(EncodeUtf8(s)) ==> r == Ok(s)
    ensures r.Ok? && b.Some? ==> EncodeUtf8(r.value) == b.value
  {
    match b
    case None => Ok("")
    case Some(bs) =>
      forall s: string | bs == EncodeUtf8(s) ensures DecodeUtf8(bs) == Some(s) { DecodeEncode(s); }
      EncodeDecode(bs);
      match DecodeUtf8(bs)
      case None => Err(UnicodeDecodeError)
      case Some(s) => Ok(s)
  }

  lemma XstrExample()
    ensures Xstr(Some([0x74, 0x65, 0x73, 0x74])) == Ok("test")
  {
    assert EncodeUtf8("test") == [0x74, 0x65, 0x73, 0x74];
  }

  // ===========================================================================
  // list_all_files over an abstract directory tree

  /** A directory as `os.walk` sees it: its file names and its sub-directories, each in
      listing order. */
  datatype Tree = Tree(files: seq<string>, dirs: seq<Subdir>)
  datatype Subdir = Subdir(name: string, tree: Tree)

  /** A path relative to the walked root, as its list of components. */
  type Components = seq<string>

  /** The components of every file below `t`, in the order a top-down `os.walk` reports
      them: the directory's own files first, then each sub-directory in turn. */
  function FilesOf(t: Tree): seq<Components>
    decreases t, 1
  {
    Singletons(t.files) + DirFilesOf(t, 0)
  }

  function DirFilesOf(t: Tree, i: nat): seq<Components>
    requires i <= |t.dirs|
    decreases t, 0, |t.dirs| - i
  {
    if i == |t.dirs| then []
    else
      assert t.dirs[i] in t.dirs;
      PrefixedBy([t.dirs[i].name], FilesOf(t.dirs[i].tree)) + DirFilesOf(t, i + 1)
  }

  function Singletons(names: seq<string>): seq<Components> {
    if names == [] then [] else [[names[0]]] + Singletons(names[1..])
  }

  /** Each path of `ps`, placed below the directory path `rel`. */
  function PrefixedBy(rel: Components, ps: seq<Components>): seq<Components> {
    if ps == [] then [] else [rel + ps[0]] + PrefixedBy(rel, ps[1..])
  }

  lemma {:induction false} PrefixedByAt(rel: Components, ps: seq<Components>)
    ensures |PrefixedBy(rel, ps)| == |ps|
    ensures forall i :: 0 <= i < |ps| ==> PrefixedBy(rel, ps)[i] == rel + ps[i]
  {
    if ps != [] {
      PrefixedByAt(rel, ps[1..]);
    }
  }

  lemma {:induction false} PrefixedByEmpty(ps: seq<Components>)
    ensures PrefixedBy([], ps) == ps
  {
    if ps != [] {
      PrefixedByEmpty(ps[1..]);
      assert [] + ps[0] == ps[0];
    }
  }

  lemma {:induction false} SingletonsAt(names: seq<string>)
    ensures |Singletons(names)| == |names|
    ensures forall i :: 0 <= i < |names| ==> Singletons(names)[i] == [names[i]]
  {
    if names != [] {
      SingletonsAt(names[1..]);
    }
  }

  /** The file at the given components exists below `t`. */
  predicate FileAt(t: Tree, p: Components)
    decreases t
  {
    || (|p| == 1 && p[0] in t.files)
    || (|p| > 1 && exists i :: 0 <= i < |t.dirs| && t.dirs[i].name == p[0] && FileAtChild(t, i, p[1..]))
  }

  predicate FileAtChild(t: Tree, i: nat, q: Components)
    requires i < |t.dirs|
    decreases t, 0
  {
    assert t.dirs[i] in t.dirs;
    FileAt(t.dirs[i].tree, q)
  }

  lemma {:induction false} DirFilesOfMembers(t: Tree, i: nat, p: Components)
    requires i <= |t.dirs|
    ensures p in DirFilesOf(t, i) <==>
      exists j :: i <= j < |t.dirs| && |p| > 0 && t.dirs[j].name == p[0] && p[1..] in FilesOf(t.dirs[j].tree)
    decreases |t.dirs| - i
  {
    if i < |t.dirs| {
      DirFilesOfMembers(t, i + 1, p);
      var d := t.dirs[i];
      var here := PrefixedBy([d.name], FilesOf(d.tree));
      PrefixedByAt([d.name], FilesOf(d.tree));
      if p in here {
        var k :| 0 <= k < |here| && here[k] == p;
        assert p[1..] == FilesOf(d.tree)[k];
      }
      if |p| > 0 && d.name == p[0] && p[1..] in FilesOf(d.tree) {
        var k :| 0 <= k < |FilesOf(d.tree)| && FilesOf(d.tree)[k] == p[1..];
        assert here[k] == p;
      }
    }
  }

  /** A path is reported for `t` exactly when a file lives there. */
  lemma {:induction false} FilesOfIffFileAt(t: Tree, p: Components)
    ensures p in FilesOf(t) <==> FileAt(t, p)
    decreases t
  {
    DirFilesOfMembers(t, 0, p);
    var ones := Singletons(t.files);
    SingletonsAt(t.files);
    assert p in ones <==> (|p| == 1 && p[0] in t.files) by {
      if p in ones {
        var k :| 0 <= k < |ones| && ones[k] == p;
      }
      if |p| == 1 && p[0] in t.files {
        var k :| 0 <= k < |t.files| && t.files[k] == p[0];
        assert ones[k] == p;
      }
    }
    if |p| > 0 {
      forall j | 0 <= j < |t.dirs|
        ensures (t.dirs[j].name == p[0] && p[1..] in FilesOf(t.dirs[j].tree)) <==>
                (t.dirs[j].name == p[0] && FileAtChild(t, j, p[1..]))
      {
        assert t.dirs[j] in t.dirs;
        FilesOfIffFileAt(t.dirs[j].tree, p[1..]);
      }
      if |p| == 1 {
        forall j | 0 <= j < |t.dirs| ensures !(p[1..] in FilesOf(t.dirs[j].tree)) {
          assert t.dirs[j] in t.dirs;
          FilesOfIffFileAt(t.dirs[j].tree, p[1..]);
        }
      }
    }
  }

  /** Joins components with the separator: what `os.path.normpath(os.path.join(relpath,
      filename))` yields for a relative directory path (`'.'` for the root itself). */
  function JoinAll(p: Components): string {
    if p == [] then "" else if |p| == 1 then p[0] else p[0] + "/" + JoinAll(p[1..])
  }

  function JoinEach(ps: seq<Components>): seq<string> {
    if ps == [] then [] else [JoinAll(ps[0])] + JoinEach(ps[1..])
  }

  lemma {:induction false} JoinEachAppend(a: seq<Components>, b: seq<Components>)
    ensures JoinEach(a + b) == JoinEach(a) + JoinEach(b)
  {
    if a != [] {
      assert (a + b)[0] == a[0];
      assert (a + b)[1..] == a[1..] + b;
      JoinEachAppend(a[1..], b);
    } else {
      assert a + b == b;
    }
  }

  lemma {:induction false} SingletonsAppend(a: seq<string>, b: seq<string>)
    ensures Singletons(a + b) == Singletons(a) + Singletons(b)
  {
    if a != [] {
      assert (a + b)[0] == a[0];
      assert (a + b)[1..] == a[1..] + b;
      SingletonsAppend(a[1..], b);
    } else {
      assert a + b == b;
    }
  }

  /** One unit per directory, so that the walk's work list can be measured. */
  function Size(t: Tree): nat
    decreases t, 1
  {
    1 + DirsSize(t, 0)
  }

  function DirsSize(t: Tree, i: nat): nat
    requires i <= |t.dirs|
    decreases t, 0, |t.dirs| - i
  {
    if i == |t.dirs| then 0
    else
      assert t.dirs[i] in t.dirs;
      Size(t.dirs[i].tree) + DirsSize(t, i + 1)
  }

  /** A directory still to be visited by the walk, with its path from the root. */
  datatype Pending = Pending(rel: Components, tree: Tree)

  function PendingFiles(ws: seq<Pending>): seq<Components> {
    if ws == [] then [] else PrefixedBy(ws[0].rel, FilesOf(ws[0].tree)) + PendingFiles(ws[1..])
  }


  function PendingSize(ws: seq<Pending>): nat {
    if ws == [] then 0 else Size(ws[0].tree) + PendingSize(ws[1..])
  }

  /** The sub-directories of a visited directory, in listing order, as new work (`dirs`
      entries `i..`). */
  function Children(rel: Components, t: Tree, i: nat): seq<Pending>
    requires i <= |t.dirs|
    decreases |t.dirs| - i
  {
    if i == |t.dirs| then [] else [Pending(rel + [t.dirs[i].name], t.dirs[i].tree)] + Children(rel, t, i + 1)
  }

  lemma {:induction false} PendingFilesAppend(a: seq<Pending>, b: seq<Pending>)
    ensures PendingFiles(a + b) == PendingFiles(a) + PendingFiles(b)
  {
    if a != [] {
      assert (a + b)[0] == a[0];
      assert (a + b)[1..] == a[1..] + b;
      PendingFilesAppend(a[1..], b);
      var head := PrefixedBy(a[0].rel, FilesOf(a[0].tree));
      assert PendingFiles(a + b) == head + PendingFiles(a[1..] + b);
      assert PendingFiles(a) == head + PendingFiles(a[1..]);
    } else {
      assert a + b == b;
    }
  }

  lemma {:induction false} PendingSizeAppend(a: seq<Pending>, b: seq<Pending>)
    ensures PendingSize(a + b) == PendingSize(a) + PendingSize(b)
  {
    if a != [] {
      assert (a + b)[0] == a[0];
      assert (a + b)[1..] == a[1..] + b;
      PendingSizeAppend(a[1..], b);
    } else {
      assert a + b == b;
    }
  }

  lemma {:induction false} PrefixedByPrefixed(rel: Components, name: string, ps: seq<Components>)
    ensures PrefixedBy(rel + [name], ps) == PrefixedBy(rel, PrefixedBy([name], ps))
  {
    if ps != [] {
      PrefixedByPrefixed(rel, name, ps[1..]);
      assert rel + [name] + ps[0] == rel + ([name] + ps[0]);
    }
  }

  lemma {:induction false} PrefixedByAppend(rel: Components, a: seq<Components>, b: seq<Components>)
    ensures PrefixedBy(rel, a + b) == PrefixedBy(rel, a) + PrefixedBy(rel, b)
  {
    if a != [] {
      assert (a + b)[0] == a[0];
      assert (a + b)[1..] == a[1..] + b;
      PrefixedByAppend(rel, a[1..], b);
    } else {
      assert a + b == b;
    }
  }

  lemma {:induction false} ChildrenFiles(rel: Components, t: Tree, i: nat)
    requires i <= |t.dirs|
    ensures PendingFiles(Children(rel, t, i)) == PrefixedBy(rel, DirFilesOf(t, i))
    ensures PendingSize(Children(rel, t, i)) == DirsSize(t, i)
    decreases |t.dirs| - i
  {
    if i < |t.dirs| {
      ChildrenFiles(rel, t, i + 1);
      var d := t.dirs[i];
      PrefixedByPrefixed(rel, d.name, FilesOf(d.tree));
      PrefixedByAppend(rel, PrefixedBy([d.name], FilesOf(d.tree)), DirFilesOf(t, i + 1));
    }
  }

  /** Appending one file of the visited directory extends what has been listed by it. */
  lemma VisitFileStep(before: seq<Components>, dirpath: Components, files: seq<string>, j: nat)
    requires j < |files|
    ensures before + PrefixedBy(dirpath, Singletons(files[..j + 1]))
         == before + PrefixedBy(dirpath, Singletons(files[..j])) + [dirpath + [files[j]]]
  {
    assert files[..j + 1] == files[..j] + [files[j]];
    SingletonsAppend(files[..j], [files[j]]);
    PrefixedByAppend(dirpath, Singletons(files[..j]), Singletons([files[j]]));
  }

  /** Once a directory's files are listed, its sub-directories replace it at the front
      of the work list: nothing is lost or reordered, and the work shrinks. */
  lemma VisitDirStep(work: seq<Pending>)
    requires work != []
    ensures PrefixedBy(work[0].rel, Singletons(work[0].tree.files))
            + PendingFiles(Children(work[0].rel, work[0].tree, 0) + work[1..])
         == PendingFiles(work)
  {
    var rel, dir, rest := work[0].rel, work[0].tree, work[1..];
    var kids := Children(rel, dir, 0);
    var own := PrefixedBy(rel, Singletons(dir.files));
    var below := PrefixedBy(rel, DirFilesOf(dir, 0));
    var later := PendingFiles(rest);
    calc {
      own + PendingFiles(kids + rest);
      { PendingFilesAppend(kids, rest); ChildrenFiles(rel, dir, 0); }
      own + (below + later);
      { ConcatAssoc(own, below, later); }
      (own + below) + later;
      { PrefixedByAppend(rel, Singletons(dir.files), DirFilesOf(dir, 0)); }
      PrefixedBy(rel, FilesOf(dir)) + later;
    }
  }

  lemma ConcatAssoc(a: seq<Components>, b: seq<Components>, c: seq<Components>)
    ensures a + (b + c) == (a + b) + c
  {
  }

  lemma VisitDirShrinks(work: seq<Pending>)
    requires work != []
    ensures PendingSize(Children(work[0].rel, work[0].tree, 0) + work[1..]) < PendingSize(work)
  {
    var rel, dir, rest := work[0].rel, work[0].tree, work[1..];
    ChildrenFiles(rel, dir, 0);
    PendingSizeAppend(Children(rel, dir, 0), rest);
  }

  /** The inner loop of the walk: the files of one directory, in listing order, joined to the
      directory's path. */
  method ListDirectory(dirpath: Components, filenames: seq<string>) returns (files: seq<string>)
    ensures files == JoinEach(PrefixedBy(dirpath, Singletons(filenames)))
  {
    ghost var listed: seq<Components> := [];
    files := [];
    for j := 0 to |filenames|
      invariant files == JoinEach(listed)
      invariant listed == PrefixedBy(dirpath, Singletons(filenames[..j]))
    {
      JoinEachAppend(listed, [dirpath + [filenames[j]]]);
      VisitFileStep([], dirpath, filenames, j);
      assert [] + listed == listed;
      files := files + [JoinAll(dirpath + [filenames[j]])];
      listed := listed + [dirpath + [filenames[j]]];
    }
    assert filenames[..|filenames|] == filenames;
  }

  lemma Regroup(a: seq<Components>, b: seq<Components>, c: seq<Components>, d: seq<Components>)
    requires b + c == d
    ensures a + b + c == a + d
  {
  }

  /** `for dirpath, _, filenames in os.walk(path): ... all_files.append(...)`: the walk
      visits directories top-down through a work list; every file name of a visited
      directory is appended, joined to the directory's path relative to the root. */
  method ListAllFiles(root: Tree) returns (allFiles: seq<string>)
    ensures allFiles == JoinEach(FilesOf(root))
  {
    ghost var listed: seq<Components> := [];
    allFiles := [];
    var work := [Pending([], root)];
    PrefixedByEmpty(FilesOf(root));
    while work != []
      invariant allFiles == JoinEach(listed)
      invariant listed + PendingFiles(work) == FilesOf(root)
      decreases PendingSize(work)
    {
      var dirpath := work[0].rel;
      var dir := work[0].tree;
      var files := ListDirectory(dirpath, dir.files);
      ghost var own := PrefixedBy(dirpath, Singletons(dir.files));
      JoinEachAppend(listed, own);
      VisitDirStep(work);
      VisitDirShrinks(work);
      var next := Children(dirpath, dir, 0) + work[1..];
      Regroup(listed, own, PendingFiles(next), PendingFiles(work));
      allFiles := allFiles + files;
      listed := listed + own;
      work := next;
    }
    assert listed + PendingFiles(work) == listed;
  }

  lemma {:induction false} JoinEachSingletons(names: seq<string>)
    ensures JoinEach(Singletons(names)) == names
  {
    if names != [] {
      JoinEachSingletons(names[1..]);
    }
  }

  /** The files of the walked directory itself come first, as bare file names. */
  lemma RootFilesFirst(t: Tree)
    ensures |t.files| <= |JoinEach(FilesOf(t))|
    ensures JoinEach(FilesOf(t))[..|t.files|] == t.files
  {
    JoinEachAppend(Singletons(t.files), DirFilesOf(t, 0));
    JoinEachSingletons(t.files);
  }

  lemma {:induction false} JoinEachMembers(ps: seq<Components>, s: string)
    ensures s in JoinEach(ps) <==> exists c :: c in ps && JoinAll(c) == s
  {
    if ps != [] {
      JoinEachMembers(ps[1..], s);
      assert JoinEach(ps) == [JoinAll(ps[0])] + JoinEach(ps[1..]);
      if s in JoinEach(ps) {
        if s == JoinAll(ps[0]) {
          assert ps[0] in ps;
        } else {
          var c :| c in ps[1..] && JoinAll(c) == s;
          assert c in ps;
        }
      }
      if exists c :: c in ps && JoinAll(c) == s {
        var c :| c in ps && JoinAll(c) == s;
        if c != ps[0] {
          assert ps == [ps[0]] + ps[1..];
          assert c in ps[1..];
        }
      }
    }
  }

  /** A relative path is listed exactly when some file below the root sits at components
      that join to it. */
  lemma ListedIffFile(t: Tree, s: string)
    ensures s in JoinEach(FilesOf(t)) <==> exists c :: FileAt(t, c) && JoinAll(c) == s
  {
    JoinEachMembers(FilesOf(t), s);
    forall c ensures c in FilesOf(t) <==> FileAt(t, c) {
      FilesOfIffFileAt(t, c);
    }
  }
}
