/** The binary format of savestates: documents of named fields, written through an advancing pointer and
    searched by walking over them. */
module Bson {
  import opened Basics
  import opened Word32

  type Byte = x: int | 0 <= x < 256

  type Bytes = seq<Byte>

  /** Values, and documents of named values. The items of an array are named after their index. */
  datatype Value = Int(v: u32) | Bin(data: Bytes) | Doc(fields: seq<Field>) | Arr(items: seq<u32>)

  datatype Field = Field(name: string, value: Value)

  /** The bytes of a string, without the zero that ends it. */
  function Str(s: string): (r: Bytes)
    ensures |r| == |s|
  {
    seq(|s|, i requires 0 <= i < |s| => s[i] as int % 256)
  }

  predicate Plain(s: string) { forall i | 0 <= i < |s| :: 0 < s[i] as int < 256 }

  lemma PlainBytes(a: string)
    requires Plain(a)
    ensures 0 !in Str(a)
  {
  }

  lemma StrTellsApart(a: string, b: string)
    requires Plain(a) && Plain(b)
    ensures Str(a) == Str(b) <==> a == b
  {
    if |a| == |b| && a != b {
      var i :| 0 <= i < |a| && a[i] != b[i];
      assert Str(a)[i] != Str(b)[i];
    }
  }

  function TypeOf(v: Value): Byte {
    match v
    case Doc(_) => 0x03
    case Arr(_) => 0x04
    case Bin(_) => 0x05
    case Int(_) => 0x10
  }

  // ----------------------------------------------------------------------------------------------
  // The format
  // ----------------------------------------------------------------------------------------------

  /** A number in four bytes, the lowest first. */
  function Word(v: u32): (r: Bytes)
    ensures |r| == 4
  {
    [v % 256, v / 256 % 256, v / 256 / 256 % 256, v / 256 / 256 / 256 % 256]
  }

  function ReadWord(s: Bytes, p: nat): u32
    requires p + 4 <= |s|
  {
    var b0: int, b1: int, b2: int, b3: int := s[p], s[p + 1], s[p + 2], s[p + 3];
    b0 + 256 * b1 + 65536 * b2 + 16777216 * b3
  }

  lemma WordReadsBack(s: Bytes, p: nat, v: u32)
    requires At(s, p, Word(v))
    ensures ReadWord(s, p) == v
  {
    var w := s[p..p + 4];
    assert w == Word(v) && s[p] == w[0] && s[p + 1] == w[1] && s[p + 2] == w[2] && s[p + 3] == w[3];
    var q := v / 256;
    var r := q / 256;
    assert v == v % 256 + 256 * q && q == q % 256 + 256 * r && r == r % 256 + 256 * (r / 256) && r / 256 < 256;
  }

  /** `b` is what `s` holds from `p` on. */
  ghost predicate At(s: Bytes, p: nat, b: Bytes) {
    p + |b| <= |s| && s[p..p + |b|] == b
  }

  /** The two-character name of an array item. */
  function ItemName(n: nat): (r: Bytes)
    ensures |r| == 2
  {
    [(48 + n / 10) % 256, 48 + n % 10]
  }

  function EncodeItem(n: nat, item: u32): (r: Bytes)
    ensures |r| == 8
  {
    [0x10] + ItemName(n) + [0] + Word(item)
  }

  function EncodeItems(items: seq<u32>, n: nat): (r: Bytes)
    requires n <= |items|
    ensures |r| == 8 * n
  {
    if n == 0 then []
    else EncodeItems(items, n - 1) + EncodeItem(n - 1, items[n - 1])
  }

  function Encode(v: Value): Bytes
    decreases v
  {
    match v
    case Int(x) => Word(x)
    case Bin(data) => Word(Wrap(|data|)) + [0] + data
    case Arr(items) => Word(Wrap(5 + 8 * |items|)) + EncodeItems(items, |items|) + [0]
    case Doc(fields) =>
      var body := EncodeAll(fields);
      Word(Wrap(4 + |body| + 1)) + body + [0]
  }

  function EncodeField(f: Field): Bytes
    decreases f
  {
    [TypeOf(f.value)] + Str(f.name) + [0] + Encode(f.value)
  }

  function EncodeAll(fields: seq<Field>): Bytes
    decreases fields
  {
    if fields == [] then [] else EncodeField(fields[0]) + EncodeAll(fields[1..])
  }

  lemma {:induction false} EncodeAppend(a: seq<Field>, b: seq<Field>)
    ensures EncodeAll(a + b) == EncodeAll(a) + EncodeAll(b)
  {
    if a == [] {
      assert a + b == b;
    } else {
      assert (a + b)[1..] == a[1..] + b;
      EncodeAppend(a[1..], b);
    }
  }

  /** From the 2081st item on, the first character of an item's name could be a zero byte. */
  const MAX_ITEMS := 2080

  /** Names are free of zero bytes, and everything is small enough for its length to be written. */
  ghost predicate Sane(v: Value)
    decreases v
  {
    match v
    case Int(_) => true
    case Bin(data) => |data| < 0x8000_0000
    case Arr(items) => |items| < MAX_ITEMS
    case Doc(fields) => |EncodeAll(fields)| < 0x8000_0000 && forall f | f in fields :: Plain(f.name) && Sane(f.value)
  }

  /** The length of an encoded value can be read off its first bytes, by its type. */
  lemma LengthReadsBack(s: Bytes, p: nat, v: Value)
    requires Sane(v) && At(s, p, Encode(v))
    ensures v.Doc? || v.Arr? ==> ReadWord(s, p) == |Encode(v)|
    ensures v.Bin? ==> ReadWord(s, p) + 1 + 4 == |Encode(v)|
    ensures v.Int? ==> |Encode(v)| == 4 && ReadWord(s, p) == v.v
  {
    hide Word, Wrap;
    match v
    case Int(x) =>
      WordReadsBack(s, p, x);
    case Bin(data) =>
      WrapSame(|data|);
      AtSplit(s, p, Word(|data|), [0] + data);
      assert Encode(v) == Word(|data|) + ([0] + data);
      WordReadsBack(s, p, |data|);
    case Arr(items) =>
      var body := EncodeItems(items, |items|) + [0];
      WrapSame(4 + |body|);
      assert Encode(v) == Word(4 + |body|) + body;
      AtSplit(s, p, Word(4 + |body|), body);
      WordReadsBack(s, p, 4 + |body|);
    case Doc(fields) =>
      var body := EncodeAll(fields) + [0];
      WrapSame(4 + |body|);
      assert Encode(v) == Word(4 + |body|) + body;
      AtSplit(s, p, Word(4 + |body|), body);
      WordReadsBack(s, p, 4 + |body|);
  }

  /** An element as bsonspec.org has it: its type, its name and a zero, then the value. A number takes four bytes;
      documents and arrays end in a zero and begin with a length that counts it and its own four bytes; a blob begins
      with the length of its data alone, and a zero for no particular kind. */
  lemma ElementLayout(f: Field)
    requires Sane(f.value)
    ensures var e, n := EncodeField(f), |f.name| + 2;
            && e[0] == (if f.value.Doc? then 3 else if f.value.Arr? then 4 else if f.value.Bin? then 5 else 16)
            && e[1..n] == Str(f.name) + [0]
            && (f.value.Int? ==> |e| == n + 4)
            && (f.value.Doc? || f.value.Arr? ==>
                  |e| > n + 4 && e[|e| - 1] == 0 && ReadWord(e, n) == |e| - n)
            && (f.value.Bin? ==>
                  |e| == n + 5 + |f.value.data| && ReadWord(e, n) == |f.value.data|
                  && e[n + 4] == 0 && e[n + 5..] == f.value.data)
  {
    hide Word, Wrap, EncodeItems, EncodeAll;
    var e, n, v := EncodeField(f), |f.name| + 2, Encode(f.value);
    var head := [TypeOf(f.value)] + Str(f.name) + [0];
    assert e == head + v && e[..n] == head && e[n..] == v;
    assert e[1..n] == head[1..];
    LengthReadsBack(e, n, f.value);
    if f.value.Bin? {
      assert v == v[..5] + f.value.data;
      assert e[n + 5..] == v[5..] && e[n + 4] == v[4];
    }
  }

  /** The number that an encoded value of any type begins with. */
  function FirstWord(v: Value): u32 {
    match v
    case Int(x) => x
    case Bin(data) => Wrap(|data|)
    case Arr(items) => Wrap(5 + 8 * |items|)
    case Doc(fields) => Wrap(4 + |EncodeAll(fields)| + 1)
  }

  lemma FirstWordReadsBack(s: Bytes, p: nat, v: Value)
    requires At(s, p, Encode(v))
    ensures p + 4 <= |s| && ReadWord(s, p) == FirstWord(v)
  {
    hide Word, Wrap, EncodeItems, EncodeAll;
    var w := Word(FirstWord(v));
    var rest := Encode(v)[4..];
    assert Encode(v) == w + rest;
    AtSplit(s, p, w, rest);
    WordReadsBack(s, p, FirstWord(v));
  }

  lemma WrapSame(x: nat)
    requires x < 0x1_0000_0000
    ensures Wrap(x) == x
  {
  }

  /** Two pieces in a row. */
  lemma AtSplit(s: Bytes, p: nat, a: Bytes, b: Bytes)
    ensures At(s, p, a + b) <==> At(s, p, a) && At(s, p + |a|, b)
  {
    if At(s, p, a + b) {
      assert s[p..p + |a|] == s[p..p + |a + b|][..|a|] == (a + b)[..|a|];
      assert s[p + |a|..p + |a| + |b|] == s[p..p + |a + b|][|a|..] == (a + b)[|a|..];
    }
    if p + |a| + |b| <= |s| {
      assert s[p..p + |a + b|] == s[p..p + |a|] + s[p + |a|..p + |a| + |b|];
    }
  }

  // ----------------------------------------------------------------------------------------------
  // Looking up
  // ----------------------------------------------------------------------------------------------

  /** The index of the first field of that name. */
  function Index(fields: seq<Field>, key: string): (r: Option<nat>)
    ensures r.Some? ==> r.value < |fields| && fields[r.value].name == key
  {
    if fields == [] then None
    else if fields[0].name == key then Some(0)
    else
      var rest := Index(fields[1..], key);
      if rest.Some? then Some(rest.value + 1) else None
  }

  lemma {:induction false} IndexIsFirst(fields: seq<Field>, key: string, i: nat)
    requires i <= |fields| && forall j | 0 <= j < i :: fields[j].name != key
    ensures i < |fields| && fields[i].name == key ==> Index(fields, key) == Some(i)
    ensures i == |fields| ==> Index(fields, key) == None
  {
    if i > 0 {
      IndexIsFirst(fields[1..], key, i - 1);
    }
  }

  /** The value of the first field of that name. */
  function Lookup(fields: seq<Field>, key: string): Option<Value> {
    var i := Index(fields, key);
    if i.Some? then Some(fields[i.value].value) else None
  }

  /** A document starts at `p`. */
  ghost predicate DocAt(s: Bytes, p: nat, fields: seq<Field>) {
    Sane(Doc(fields)) && At(s, p, Encode(Doc(fields)))
  }

  /** Where the walk over a document stands: before field `i`. */
  ghost predicate FieldsAt(s: Bytes, p: nat, fields: seq<Field>, i: nat) {
    && i <= |fields|
    && At(s, p, EncodeAll(fields[i..]) + [0])
    && forall f | f in fields :: Plain(f.name) && Sane(f.value)
  }

  // ----------------------------------------------------------------------------------------------
  // What a walk sees
  // ----------------------------------------------------------------------------------------------

  /** What the reader sees from some place on: fields, as far as the length at that place reaches. The reader
      follows names without looking at types, so it also walks over what is no document. */
  datatype View = View(fields: seq<Field>, limit: nat)

  /** Where field `i` starts, counted from the length. */
  function Offset(fields: seq<Field>, i: nat): nat
    requires i <= |fields|
  {
    4 + |EncodeAll(fields[..i])|
  }

  /** A document seen as a whole. */
  function Whole(fields: seq<Field>): View { View(fields, 4 + |EncodeAll(fields)| + 1) }

  /** The index of the first field of that name, if it starts within the limit. */
  function Seen(w: View, key: string): (r: Option<nat>)
    ensures r.Some? ==> r.value < |w.fields|
  {
    var i := Index(w.fields, key);
    if i.Some? && Offset(w.fields, i.value) < w.limit then i else None
  }

  function Sees(w: View, key: string): Option<Value> {
    var i := Seen(w, key);
    if i.Some? then Some(w.fields[i.value].value) else None
  }

  /** The items of an array, as fields named after their index. */
  function ItemFields(items: seq<u32>): seq<Field> {
    seq(|items|, n requires 0 <= n < |items| =>
      Field([ItemName(n)[0] as char, ItemName(n)[1] as char], Int(items[n])))
  }

  /** What is seen from the value of field `i` on: the fields of a document, the items of an array, nothing in a
      blob; and from a number on the fields after it, up to as many bytes as the number says. */
  function Into(w: View, i: nat): View
    requires i < |w.fields|
  {
    match w.fields[i].value
    case Doc(fields) => Whole(fields)
    case Arr(items) => Whole(ItemFields(items))
    case Bin(data) => View([], |data|)
    case Int(v) => View(w.fields[i + 1..], v)
  }

  /** What is seen under a name. */
  function Enter(w: View, key: string): View {
    var i := Seen(w, key);
    if i.Some? then Into(w, i.value) else View([], 0)
  }

  ghost predicate WalkAt(s: Bytes, p: nat, w: View) {
    p + 4 <= |s| && ReadWord(s, p) == w.limit && FieldsAt(s, p + 4, w.fields, 0)
  }

  /** Where the value of field `i` is. */
  function ValueAt(p: nat, w: View, i: nat): nat
    requires i < |w.fields|
  {
    p + Offset(w.fields, i) + 1 + |w.fields[i].name| + 1
  }

  /** Where the value called `key` is. */
  function PlaceOf(p: nat, w: View, key: string): nat
    requires Seen(w, key).Some?
  {
    ValueAt(p, w, Seen(w, key).value)
  }

  lemma {:induction false} OffsetsGrow(fields: seq<Field>, i: nat, j: nat)
    requires i <= j <= |fields|
    ensures Offset(fields, i) <= Offset(fields, j)
  {
    assert fields[..j] == fields[..i] + fields[i..j];
    EncodeAppend(fields[..i], fields[i..j]);
  }

  lemma NextOffset(fields: seq<Field>, i: nat)
    requires i < |fields|
    ensures Offset(fields, i + 1) == Offset(fields, i) + |EncodeField(fields[i])|
  {
    hide EncodeField;
    assert fields[..i + 1] == fields[..i] + [fields[i]];
    EncodeAppend(fields[..i], [fields[i]]);
    assert EncodeAll([fields[i]]) == EncodeField(fields[i]) + EncodeAll([]);
  }

  /** In a whole document every field is seen. */
  lemma WholeSeesAll(fields: seq<Field>, key: string)
    ensures Seen(Whole(fields), key) == Index(fields, key) && Sees(Whole(fields), key) == Lookup(fields, key)
  {
    var i := Index(fields, key);
    if i.Some? {
      OffsetsGrow(fields, i.value, |fields|);
      assert fields[..|fields|] == fields;
    }
  }

  lemma DocIsWalk(s: Bytes, p: nat, fields: seq<Field>)
    requires DocAt(s, p, fields)
    ensures WalkAt(s, p, Whole(fields))
  {
    LengthReadsBack(s, p, Doc(fields));
    assert fields[0..] == fields;
    var body := EncodeAll(fields) + [0];
    var w := s[p..p + |Encode(Doc(fields))|];
    assert w[4..] == body;
  }

  lemma {:induction false} ItemsAreFields(items: seq<u32>, n: nat)
    requires n <= |items| <= MAX_ITEMS
    ensures EncodeItems(items, n) == EncodeAll(ItemFields(items)[..n])
  {
    var fs := ItemFields(items);
    if n > 0 {
      ItemsAreFields(items, n - 1);
      assert fs[..n] == fs[..n - 1] + [fs[n - 1]];
      EncodeAppend(fs[..n - 1], [fs[n - 1]]);
      assert EncodeAll([fs[n - 1]]) == EncodeField(fs[n - 1]) + EncodeAll([]);
      ItemIsField(items, n - 1);
    }
  }

  lemma ItemIsField(items: seq<u32>, n: nat)
    requires n < |items|
    ensures EncodeField(ItemFields(items)[n]) == EncodeItem(n, items[n])
  {
    hide Word;
    assert Str(ItemFields(items)[n].name) == ItemName(n);
  }

  lemma ItemNamesArePlain(items: seq<u32>)
    requires |items| < MAX_ITEMS
    ensures forall f | f in ItemFields(items) :: Plain(f.name) && Sane(f.value)
  {
    forall n | 0 <= n < |items|
      ensures Plain(ItemFields(items)[n].name)
    {
      assert n / 10 < 208;
    }
  }

  /** The parts of the next field, and where the one after it starts. */
  lemma FieldParts(s: Bytes, p: nat, fields: seq<Field>, i: nat)
    requires FieldsAt(s, p, fields, i)
    ensures p < |s| && i <= |fields| && (i == |fields| ==> s[p] == 0)
    ensures i < |fields| ==>
              var f := fields[i];
              && s[p] == TypeOf(f.value)
              && At(s, p + 1, Str(f.name) + [0])
              && At(s, p + 1 + |f.name| + 1, Encode(f.value))
              && FieldsAt(s, p + |EncodeField(f)|, fields, i + 1)
              && |EncodeAll(fields[i..])| == |EncodeField(f)| + |EncodeAll(fields[i + 1..])|
              && |EncodeField(f)| == 1 + |f.name| + 1 + |Encode(f.value)|
  {
    var rest := fields[i..];
    if i == |fields| {
      assert s[p] == s[p..p + 1][0];
    } else {
      var f := fields[i];
      var tail := EncodeAll(fields[i + 1..]) + [0];
      assert rest[1..] == fields[i + 1..];
      assert EncodeAll(rest) + [0] == [TypeOf(f.value)] + ((Str(f.name) + [0]) + (Encode(f.value) + tail));
      assert |EncodeField(f)| == 1 + |f.name| + 1 + |Encode(f.value)|;
      AtSplit(s, p, [TypeOf(f.value)], (Str(f.name) + [0]) + (Encode(f.value) + tail));
      AtSplit(s, p + 1, Str(f.name) + [0], Encode(f.value) + tail);
      AtSplit(s, p + 1 + |f.name| + 1, Encode(f.value), tail);
      assert s[p] == s[p..p + 1][0];
    }
  }

  /** Where the walk stands before field `i`. */
  lemma {:induction false} WalkTo(s: Bytes, p: nat, w: View, i: nat)
    requires WalkAt(s, p, w) && i <= |w.fields|
    ensures FieldsAt(s, p + Offset(w.fields, i), w.fields, i)
  {
    if i > 0 {
      WalkTo(s, p, w, i - 1);
      FieldParts(s, p + Offset(w.fields, i - 1), w.fields, i - 1);
      NextOffset(w.fields, i - 1);
    }
  }

  /** Following a name, whatever it stands for, leads to what `Into` says. */
  lemma IntoAt(s: Bytes, p: nat, w: View, i: nat)
    requires WalkAt(s, p, w) && i < |w.fields|
    ensures At(s, ValueAt(p, w, i), Encode(w.fields[i].value)) && WalkAt(s, ValueAt(p, w, i), Into(w, i))
  {
    hide Word, Wrap, ReadWord, EncodeItems, EncodeField, EncodeAll;
    var at, v := ValueAt(p, w, i), w.fields[i].value;
    WalkTo(s, p, w, i);
    FieldParts(s, p + Offset(w.fields, i), w.fields, i);
    assert w.fields[i] in w.fields;
    LengthReadsBack(s, at, v);
    EncodedSize(v);
    match v
    case Doc(fields) =>
      DocIsWalk(s, at, fields);
    case Arr(items) =>
      ArrayIsWalk(s, at, items);
    case Bin(data) =>
      BlobIsWalk(s, at, data);
    case Int(x) =>
      NextOffset(w.fields, i);
      WalkTo(s, p, w, i + 1);
      assert w.fields[i + 1..][0..] == w.fields[i + 1..];
      assert forall f | f in w.fields[i + 1..] :: f in w.fields;
      FieldLength(w.fields[i]);
  }

  lemma FieldLength(f: Field)
    ensures |EncodeField(f)| == 1 + |f.name| + 1 + |Encode(f.value)|
  {
  }

  lemma ArrayIsWalk(s: Bytes, p: nat, items: seq<u32>)
    requires Sane(Arr(items)) && At(s, p, Encode(Arr(items)))
    ensures WalkAt(s, p, Whole(ItemFields(items)))
  {
    hide Word, Wrap, ReadWord, EncodeItems, EncodeField, EncodeAll, ItemFields;
    var fs, n := ItemFields(items), |items|;
    LengthReadsBack(s, p, Arr(items));
    ItemsAreFields(items, n);
    ItemNamesArePlain(items);
    SameLength(items);
    assert fs[..n] == fs && fs[0..] == fs;
    var size, body := Word(Wrap(5 + 8 * n)), EncodeItems(items, n) + [0];
    assert Encode(Arr(items)) == size + body;
    AtSplit(s, p, size, body);
  }

  lemma SameLength(items: seq<u32>)
    ensures |ItemFields(items)| == |items|
  {
  }

  lemma BlobIsWalk(s: Bytes, p: nat, data: Bytes)
    requires Sane(Bin(data)) && At(s, p, Encode(Bin(data)))
    ensures WalkAt(s, p, View([], |data|))
  {
    hide Word, Wrap, ReadWord;
    LengthReadsBack(s, p, Bin(data));
    var size := Word(Wrap(|data|));
    assert Encode(Bin(data)) == size + ([0] + data);
    AtSplit(s, p, size, [0] + data);
    AtSplit(s, p + 4, [0], data);
    assert EncodeAll([]) + [0] == [0];
  }

  // ----------------------------------------------------------------------------------------------
  // Reading
  // ----------------------------------------------------------------------------------------------

  /** The number of bytes before the next zero. */
  method StringLength(s: Bytes, p: nat, ghost name: Bytes) returns (n: nat)
    requires 0 !in name && At(s, p, name + [0])
    ensures n == |name|
  {
    ghost var w := s[p..p + |name| + 1];
    assert forall k | 0 <= k <= |name| :: s[p + k] == w[k];
    n := 0;
    while s[p + n] != 0
      invariant 0 <= n <= |name|
      decreases |name| - n
    {
      n := n + 1;
    }
  }

  /** Steps over a value of a known type. */
  method Skip(s: Bytes, p: nat, tp: Byte, ghost v: Value) returns (q: nat)
    requires Sane(v) && At(s, p, Encode(v)) && tp == TypeOf(v)
    ensures q == p + |Encode(v)|
  {
    hide Word, ReadWord, Encode;
    LengthReadsBack(s, p, v);
    EncodedSize(v);
    if tp == 0x03 || tp == 0x04 {
      q := p + ReadWord(s, p);
    } else if tp == 0x05 {
      q := p + ReadWord(s, p) + 1 + 4;
    } else if tp == 0x10 {
      q := p + 4;
    } else {
      q := p;
    }
  }

  lemma EncodedSize(v: Value)
    ensures |Encode(v)| >= 4
  {
  }

  /** Reads the type and the name of the field at `p`: whether it is called `key`, and where its value is. */
  method ReadHeader(s: Bytes, p: nat, key: string, ghost fields: seq<Field>, ghost i: nat)
    returns (tp: Byte, at: nat, same: bool)
    requires FieldsAt(s, p, fields, i) && i < |fields| && Plain(key)
    ensures tp == TypeOf(fields[i].value) && same == (fields[i].name == key)
    ensures at == p + 1 + |fields[i].name| + 1
    ensures At(s, at, Encode(fields[i].value)) && Sane(fields[i].value)
  {
    hide Encode, EncodeField, EncodeAll, Word, ReadWord, Sane, Str, Plain;
    FieldParts(s, p, fields, i);
    ghost var f := fields[i];
    assert f in fields;
    tp := s[p];
    PlainBytes(f.name);
    StrTellsApart(f.name, key);
    var n := StringLength(s, p + 1, Str(f.name));
    AtSplit(s, p + 1, Str(f.name), [0]);
    same := |key| == n && s[p + 1..p + 1 + n] == Str(key);
    at := p + 1 + n + 1;
  }

  /** Walks over fields up to the first one called `key`, as far as the length reaches. The result is the type
      of its value, and where that is. */
  method Find(s: Bytes, p0: nat, key: string, ghost w: View) returns (found: bool, tp: Byte, at: nat)
    requires Plain(key) && WalkAt(s, p0, w)
    ensures found <==> Sees(w, key).Some?
    ensures found ==> at == PlaceOf(p0, w, key) && tp == TypeOf(Sees(w, key).value) && WalkAt(s, at, Enter(w, key))
    ensures found ==> At(s, at, Encode(Sees(w, key).value)) && Sane(Sees(w, key).value)
  {
    hide Encode, EncodeField, EncodeAll, Word, ReadWord, FieldsAt, Sane, Index, At, TypeOf, Offset, Into;
    var size := ReadWord(s, p0);
    ghost var fields, i := w.fields, 0;
    WalkStarts(s, p0, w);
    var p: nat := p0 + 4;
    FieldParts(s, p, fields, i);
    TypesNotZero();
    while s[p] != 0 && p - p0 < size
      invariant p < |s| && i <= |fields| && FieldsAt(s, p, fields, i)
      invariant s[p] == if i < |fields| then TypeOf(fields[i].value) else 0
      invariant p == p0 + Offset(fields, i)
      invariant forall j | 0 <= j < i :: fields[j].name != key
      decreases |fields| - i
    {
      FieldParts(s, p, fields, i);
      var same;
      tp, at, same := ReadHeader(s, p, key, fields, i);
      if same {
        IndexIsFirst(fields, key, i);
        IntoAt(s, p0, w, i);
        return true, tp, at;
      }
      p := Skip(s, at, tp, fields[i].value);
      NextOffset(fields, i);
      i := i + 1;
      FieldParts(s, p, fields, i);
    }
    NotSeen(w, key, i);
    return false, 0, 0;
  }

  lemma WalkStarts(s: Bytes, p: nat, w: View)
    requires WalkAt(s, p, w)
    ensures FieldsAt(s, p + 4, w.fields, 0) && p + 4 == p + Offset(w.fields, 0)
  {
  }

  /** What the walk has not met within the limit is not seen. */
  lemma NotSeen(w: View, key: string, i: nat)
    requires i <= |w.fields| && forall j | 0 <= j < i :: w.fields[j].name != key
    requires i == |w.fields| || Offset(w.fields, i) >= w.limit
    ensures Seen(w, key) == None
  {
    hide Offset;
    IndexIsFirst(w.fields, key, i);
    var k := Index(w.fields, key);
    if k.Some? {
      assert k.value >= i;
      OffsetsGrow(w.fields, i, k.value);
    }
  }

  lemma TypesNotZero()
    ensures forall v :: TypeOf(v) != 0
  {
  }

  /** The value of the field called `key`, if one is seen. */
  method FindKey(s: Bytes, p0: nat, key: string, ghost w: View) returns (r: Option<nat>)
    requires Plain(key) && WalkAt(s, p0, w)
    ensures r.Some? <==> Sees(w, key).Some?
    ensures r.Some? ==> r.value == PlaceOf(p0, w, key) && WalkAt(s, r.value, Enter(w, key))
    ensures r.Some? ==> At(s, r.value, Encode(Sees(w, key).value)) && Sane(Sees(w, key).value)
  {
    var found, _, at := Find(s, p0, key, w);
    r := if found then Some(at) else None;
  }

  /** Whether the first field called `key` has the given type. */
  method ContainsKey(s: Bytes, p0: nat, key: string, keytype: Byte, ghost w: View) returns (r: bool)
    requires Plain(key) && WalkAt(s, p0, w)
    ensures r <==> Sees(w, key).Some? && TypeOf(Sees(w, key).value) == keytype
  {
    var found, tp, _ := Find(s, p0, key, w);
    r := found && tp == keytype;
  }

  /** Reads the number that the value of a field begins with, whatever its type. */
  method ReadInt32(s: Bytes, p0: nat, key: string, ghost w: View) returns (ok: bool, value: u32)
    requires Plain(key) && WalkAt(s, p0, w)
    ensures ok <==> Sees(w, key).Some?
    ensures ok ==> value == FirstWord(Sees(w, key).value)
  {
    hide ReadWord, Encode;
    var p := FindKey(s, p0, key, w);
    if p.None? {
      return false, 0;
    }
    FirstWordReadsBack(s, p.value, Sees(w, key).value);
    return true, ReadWord(s, p.value);
  }

  /** Where the value of item `k` of an array is. */
  lemma {:induction false} ItemAt(s: Bytes, p: nat, items: seq<u32>, n: nat, k: nat)
    requires k < n <= |items| && At(s, p, EncodeItems(items, n))
    ensures At(s, p + 8 * k + 4, Word(items[k]))
  {
    hide Word;
    var last := EncodeItem(n - 1, items[n - 1]);
    AtSplit(s, p, EncodeItems(items, n - 1), last);
    if k == n - 1 {
      assert last == ([0x10] + ItemName(n - 1) + [0]) + Word(items[n - 1]);
      AtSplit(s, p + 8 * k, [0x10] + ItemName(n - 1) + [0], Word(items[n - 1]));
    } else {
      ItemAt(s, p, items, n - 1, k);
    }
  }

  /** The words read from an array of `n` items at `p`, whatever is there. */
  function WordsAt(s: Bytes, p: nat, n: nat): (r: seq<u32>)
    requires p + 4 + 8 * n <= |s|
    ensures |r| == n
  {
    seq(n, k requires 0 <= k < n => ReadWord(s, p + 8 * k + 8))
  }

  /** Reads an array of exactly `count` numbers into `out`. Only the length is looked at, not the type: what it
      claims has to be there. */
  method ReadInt32Array(s: Bytes, p0: nat, key: string, out: array<u32>, ghost w: View) returns (ok: bool)
    requires Plain(key) && WalkAt(s, p0, w)
    requires Sees(w, key).Some? && Claims(Sees(w, key).value, out.Length) ==>
               PlaceOf(p0, w, key) + 4 + 8 * out.Length <= |s|
    modifies out
    ensures ok <==> Sees(w, key).Some? && Claims(Sees(w, key).value, out.Length)
    ensures ok ==> out[..] == WordsAt(s, PlaceOf(p0, w, key), out.Length)
    ensures ok && Sees(w, key).value.Arr? ==> out[..] == Sees(w, key).value.items
    ensures !ok ==> out[..] == old(out[..])
  {
    hide ReadWord, Encode, ValueAt;
    var at := FindKey(s, p0, key, w);
    if at.None? {
      return false;
    }
    FirstWordReadsBack(s, at.value, Sees(w, key).value);
    var p := at.value;
    var size := ReadWord(s, p);
    p := p + 4;
    if size < 5 {
      return false;
    }
    var count := (size - 5) / 8;
    if count != out.Length {
      return false;
    }
    var k := 0;
    while k < count
      invariant 0 <= k <= count && p == at.value + 4 + 8 * k
      invariant out[..k] == WordsAt(s, at.value, count)[..k]
    {
      p := p + 4;
      out[k] := ReadWord(s, p);
      p := p + 4;
      k := k + 1;
    }
    assert out[..] == out[..k];
    if Sees(w, key).value.Arr? {
      WordsAreItems(s, at.value, Sees(w, key).value.items);
    }
    ok := true;
  }

  /** The length that the value begins with is that of an array of `n` items. */
  predicate Claims(v: Value, n: nat) {
    FirstWord(v) >= 5 && (FirstWord(v) - 5) / 8 == n
  }

  lemma ArrayClaims(items: seq<u32>, n: nat)
    requires Sane(Arr(items))
    ensures Claims(Arr(items), n) <==> |items| == n
  {
    WrapSame(5 + 8 * |items|);
  }

  lemma WordsAreItems(s: Bytes, p: nat, items: seq<u32>)
    requires Sane(Arr(items)) && At(s, p, Encode(Arr(items)))
    ensures p + 4 + 8 * |items| <= |s| && WordsAt(s, p, |items|) == items
  {
    hide Word, ReadWord, EncodeItems;
    ArrayParts(s, p, items);
    forall k | 0 <= k < |items|
      ensures WordsAt(s, p, |items|)[k] == items[k]
    {
      ItemAt(s, p + 4, items, |items|, k);
      WordReadsBack(s, p + 8 * k + 8, items[k]);
    }
  }

  lemma ArrayParts(s: Bytes, p: nat, items: seq<u32>)
    requires Sane(Arr(items)) && At(s, p, Encode(Arr(items)))
    ensures |Encode(Arr(items))| == 5 + 8 * |items|
    ensures At(s, p + 4, EncodeItems(items, |items|))
  {
    hide Word, Wrap, EncodeItems;
    var size := Word(Wrap(5 + 8 * |items|));
    assert Encode(Arr(items)) == size + (EncodeItems(items, |items|) + [0]);
    AtSplit(s, p, size, EncodeItems(items, |items|) + [0]);
    AtSplit(s, p + 4, EncodeItems(items, |items|), [0]);
  }

  /** Reads a blob of exactly as many bytes as `out` holds. Only the length is looked at, not the type: what it
      claims has to be there. */
  method ReadBytes(s: Bytes, p0: nat, key: string, out: array<Byte>, ghost w: View) returns (ok: bool)
    requires Plain(key) && WalkAt(s, p0, w)
    requires Sees(w, key).Some? && FirstWord(Sees(w, key).value) == out.Length ==>
               PlaceOf(p0, w, key) + 5 + out.Length <= |s|
    modifies out
    ensures ok <==> Sees(w, key).Some? && FirstWord(Sees(w, key).value) == out.Length
    ensures ok ==> out[..] == s[PlaceOf(p0, w, key) + 5..PlaceOf(p0, w, key) + 5 + out.Length]
    ensures ok && Sees(w, key).value.Bin? ==> out[..] == Sees(w, key).value.data
    ensures !ok ==> out[..] == old(out[..])
  {
    hide ReadWord, Encode, ValueAt;
    var at := FindKey(s, p0, key, w);
    if at.None? {
      return false;
    }
    FirstWordReadsBack(s, at.value, Sees(w, key).value);
    var size := ReadWord(s, at.value);
    if size != out.Length {
      return false;
    }
    forall k | 0 <= k < size {
      out[k] := s[at.value + 5 + k];
    }
    assert out[..] == s[at.value + 5..at.value + 5 + size];
    if Sees(w, key).value.Bin? {
      BlobIsData(s, at.value, Sees(w, key).value.data);
    }
    ok := true;
  }

  lemma BlobIsData(s: Bytes, p: nat, data: Bytes)
    requires Sane(Bin(data)) && At(s, p, Encode(Bin(data)))
    ensures FirstWord(Bin(data)) == |data| && p + 5 + |data| <= |s| && s[p + 5..p + 5 + |data|] == data
  {
    hide Word;
    WrapSame(|data|);
    var head := Word(Wrap(|data|)) + [0];
    assert Encode(Bin(data)) == head + data;
    AtSplit(s, p, head, data);
  }

  // ----------------------------------------------------------------------------------------------
  // Writing
  // ----------------------------------------------------------------------------------------------

  /** A buffer that is written through an advancing pointer. */
  class Writer {
    const buf: array<Byte>
    var p: nat

    constructor (size: nat)
      ensures buf.Length == size && p == 0 && fresh(buf)
    {
      buf := new Byte[size](_ => 0);
      p := 0;
    }

    predicate Room(n: nat)
      reads `p
    {
      p + n <= buf.Length
    }

    /** What has been written so far. */
    ghost function Written(): Bytes
      requires Room(0)
      reads `p, buf
    {
      buf[..p]
    }

    method Put(b: Bytes)
      requires Room(|b|)
      modifies `p, buf
      ensures Room(0) && Written() == old(Written()) + b
    {
      forall k | 0 <= k < |b| {
        buf[p + k] := b[k];
      }
      assert buf[p..p + |b|] == b && buf[..p] == old(buf[..p]);
      p := p + |b|;
    }

    /** Writes the type and the name of a field. */
    method WriteHeader(tp: Byte, key: string)
      requires Room(1 + |key| + 1)
      modifies `p, buf
      ensures Room(0) && Written() == old(Written()) + ([tp] + Str(key) + [0])
    {
      Put([tp]);
      Put(Str(key));
      Put([0]);
    }

    method WriteInt32(key: string, value: u32)
      requires Room(|EncodeField(Field(key, Int(value)))|)
      modifies `p, buf
      ensures Room(0) && Written() == old(Written()) + EncodeField(Field(key, Int(value)))
    {
      hide Word;
      WriteHeader(0x10, key);
      Put(Word(value));
    }

    method WriteInt32Array(key: string, items: seq<u32>)
      requires Room(|EncodeField(Field(key, Arr(items)))|)
      modifies `p, buf
      ensures Room(0) && Written() == old(Written()) + EncodeField(Field(key, Arr(items)))
    {
      hide Word, Wrap, EncodeItems;
      var n := |items|;
      ghost var size := Word(Wrap(5 + 8 * n));
      WriteHeader(0x04, key);
      Put(Word(Wrap(5 + n * 8)));
      WriteItems(items);
      Put([0]);
      assert EncodeField(Field(key, Arr(items)))
          == [0x04] + Str(key) + [0] + (size + EncodeItems(items, n) + [0]);
    }

    method WriteItems(items: seq<u32>)
      requires Room(8 * |items|)
      modifies `p, buf
      ensures Room(0) && Written() == old(Written()) + EncodeItems(items, |items|)
    {
      hide EncodeItem;
      ghost var start := Written();
      for k := 0 to |items|
        invariant Room(8 * (|items| - k)) && Written() == start + EncodeItems(items, k)
      {
        WriteItem(k, items[k]);
        assert EncodeItems(items, k + 1) == EncodeItems(items, k) + EncodeItem(k, items[k]);
      }
    }

    method WriteItem(k: nat, value: u32)
      requires Room(8)
      modifies `p, buf
      ensures Room(0) && Written() == old(Written()) + EncodeItem(k, value)
    {
      hide Word, ItemName;
      Put([0x10]);
      Put(ItemName(k));
      Put([0]);
      Put(Word(value));
    }

    method WriteBytes(key: string, data: Bytes)
      requires Room(|EncodeField(Field(key, Bin(data)))|)
      modifies `p, buf
      ensures Room(0) && Written() == old(Written()) + EncodeField(Field(key, Bin(data)))
    {
      hide Word, Wrap, Str;
      WriteHeader(0x05, key);
      Put(Word(Wrap(|data|)));
      Put([0]);
      Put(data);
      assert EncodeField(Field(key, Bin(data))) == [0x05] + Str(key) + [0] + (Word(Wrap(|data|)) + [0] + data);
    }

    /** Opens a document; its length is left open. */
    method StartDocument(key: string) returns (header: nat)
      requires Room(1 + |key| + 1 + 4)
      modifies `p, buf
      ensures Room(0) && header + 4 == p
      ensures Written() == old(Written()) + ([0x03] + Str(key) + [0] + Word(0))
    {
      WriteHeader(0x03, key);
      header := p;
      Put(Word(0));
    }

    /** Closes a document, and fills in its length. */
    method FinishDocument(header: nat)
      requires Room(1) && header + 4 <= p
      modifies `p, buf
      ensures Room(0)
      ensures Written() ==
                old(Written()[..header]) + Word(Wrap(old(p) - header + 1)) + old(Written()[header + 4..]) + [0]
    {
      hide Word, Wrap;
      var size := p - header + 1;
      ghost var before := Written();
      Put([0]);
      assert Written()[..header] == before[..header] && Written()[header + 4..] == before[header + 4..] + [0];
      Patch(header, Word(Wrap(size)));
    }

    /** Writes over what was written before. */
    method Patch(at: nat, b: Bytes)
      requires Room(0) && at + |b| <= p
      modifies buf
      ensures Written() == old(Written()[..at]) + b + old(Written()[at + |b|..])
    {
      forall k | 0 <= k < |b| {
        buf[at + k] := b[k];
      }
      assert buf[at..at + |b|] == b && buf[..at] == old(buf[..at]) && buf[at + |b|..p] == old(buf[at + |b|..p]);
    }
  }

  /** A document opened, its fields written, and closed, is the encoding of the document. */
  lemma DocumentWritten(before: Bytes, key: string, fields: seq<Field>)
    ensures var head := [0x03] + Str(key) + [0];
            before + head + Word(Wrap(4 + |EncodeAll(fields)| + 1)) + EncodeAll(fields) + [0]
            == before + EncodeField(Field(key, Doc(fields)))
  {
  }
}
