/**
 Variants as XML (`CXml`), over the stream of tokens that the XML reader and writer exchange.
 Parsing is nested: a container's loop ends when a child call consumes the container's own end
 tag and reports failure. The text codecs of the leaves (Base64, percent encoding, conversion
 from and to strings) are a parameter.
 */
module Xml {
  datatype LeafType =
    | BoolT | IntT | UIntT | LongLongT | ULongLongT | DoubleT | CharT | StringT | ByteArrayT
    | DateT | TimeT | DateTimeT | UrlT

  datatype Kind = InvalidK | MapK | HashK | ListK | StringListK | LeafK(t: LeafType)

  /** What a leaf holds: the characters of a string or the bytes of an array, or any other value,
      of which nothing is known but its identity. */
  datatype Value = Text(text: string) | Opaque(id: int)

  /** `Foreign` is a value whose type has no name. */
  datatype Variant =
    | Invalid
    | Foreign(data: Value)
    | Leaf(t: LeafType, data: Value)
    | MapV(m: map<string, Variant>)
    | HashV(m: map<string, Variant>)
    | ListV(items: seq<Variant>)
    | StringListV(strs: seq<string>)

  /** Tokens of the stream. `Other` stands for comments and the like; behind `Broken`, an error,
      the reader is at its end. */
  datatype Token = Start(name: string, typ: string) | Characters(text: string) | End | EndDocument | Other | Broken

  /** The type table. */
  function TypeName(k: Kind): string {
    match k
    case InvalidK => "Invalid"
    case MapK => "Map"
    case HashK => "Hash"
    case ListK => "List"
    case StringListK => "StringList"
    case LeafK(t) =>
      match t
      case BoolT => "Bool"
      case IntT => "Int"
      case UIntT => "UInt"
      case LongLongT => "LongLong"
      case ULongLongT => "ULongLong"
      case DoubleT => "Double"
      case CharT => "Char"
      case StringT => "String"
      case ByteArrayT => "ByteArray"
      case DateT => "Date"
      case TimeT => "Time"
      case DateTimeT => "DateTime"
      case UrlT => "Url"
  }

  /** The kind a type name stands for; unknown names count as invalid. */
  function KindOf(s: string): Kind {
    if s == "Map" then MapK
    else if s == "Hash" then HashK
    else if s == "List" then ListK
    else if s == "StringList" then StringListK
    else if s == "Bool" then LeafK(BoolT)
    else if s == "Int" then LeafK(IntT)
    else if s == "UInt" then LeafK(UIntT)
    else if s == "LongLong" then LeafK(LongLongT)
    else if s == "ULongLong" then LeafK(ULongLongT)
    else if s == "Double" then LeafK(DoubleT)
    else if s == "Char" then LeafK(CharT)
    else if s == "String" then LeafK(StringT)
    else if s == "ByteArray" then LeafK(ByteArrayT)
    else if s == "Date" then LeafK(DateT)
    else if s == "Time" then LeafK(TimeT)
    else if s == "DateTime" then LeafK(DateTimeT)
    else if s == "Url" then LeafK(UrlT)
    else InvalidK
  }

  /** The table can be read both ways. */
  lemma TypeTable(k: Kind)
    ensures KindOf(TypeName(k)) == k
  {
  }

  function KindOfValue(v: Variant): Kind {
    match v
    case Invalid => InvalidK
    case Foreign(_) => InvalidK
    case Leaf(t, _) => LeafK(t)
    case MapV(_) => MapK
    case HashV(_) => HashK
    case ListV(_) => ListK
    case StringListV(_) => StringListK
  }

  /** The codecs for leaf text and the lazy flag that avoids Base64. `asString` is what any value
      is printed as, `convert` what a string becomes when turned into a leaf type; either may lose
      or change something. */
  datatype Codec = Codec(
    toBase64: string -> string, fromBase64: string -> string,
    toPercent: string -> string, fromPercent: string -> string,
    convert: (LeafType, string) -> Value, asString: Variant -> string, bLazy: bool)

  ghost predicate Faithful(c: Codec) {
    && (forall s :: c.fromBase64(c.toBase64(s)) == s)
    && (forall s :: c.fromPercent(c.toPercent(s)) == s)
    && c.fromPercent("") == ""
    && (forall s :: c.convert(StringT, s) == Text(s) && c.asString(Leaf(StringT, Text(s))) == s)
  }

  /** The text written for a leaf. */
  function LeafText(v: Variant, c: Codec): string
    requires v.Leaf? || v.Foreign? || v.Invalid?
  {
    match v
    case Invalid => ""
    case Foreign(_) => c.toPercent(c.asString(v))
    case Leaf(t, d) => if t == ByteArrayT && !c.bLazy then c.toBase64(BytesOf(d)) else c.toPercent(c.asString(v))
  }

  function BytesOf(d: Value): string {
    if d.Text? then d.text else ""
  }

  /** The leaf read from a text; a missing or unknown type gives a string. */
  function LeafOf(k: Kind, text: string, c: Codec): Variant {
    if k == LeafK(ByteArrayT) && !c.bLazy then Leaf(ByteArrayT, Text(c.fromBase64(text)))
    else
      match k
      case LeafK(t) => Leaf(t, c.convert(t, c.fromPercent(text)))
      case _ => Leaf(StringT, Text(c.fromPercent(text)))
  }

  // Parsing

  /** The local state of one call: no start tag seen yet, or inside a leaf. */
  datatype Mode = Closed | Open(name: string, kind: Kind, text: string)

  datatype Result = Result(ok: bool, name: string, value: Variant, pos: nat)

  const NONE := Invalid

  /** One call of `Parse` from token `i` on. */
  function Parse(toks: seq<Token>, i: nat, mode: Mode, c: Codec): (r: Result)
    requires i <= |toks|
    ensures i <= r.pos <= |toks| && (r.ok ==> i < r.pos)
    decreases |toks| - i, 0
  {
    if i == |toks| then Result(false, "", NONE, i)
    else
      match toks[i]
      case Broken => Result(false, "", NONE, |toks|)
      case EndDocument => Parse(toks, i + 1, mode, c)
      case Other => Parse(toks, i + 1, mode, c)
      case Characters(t) =>
        Parse(toks, i + 1, if mode.Open? then mode.(text := mode.text + t) else mode, c)
      case End =>
        if mode.Open? then Result(true, mode.name, LeafOf(mode.kind, mode.text, c), i + 1)
        else Result(false, "", NONE, i + 1)
      case Start(name, typ) =>
        var k := KindOf(typ);
        match k
        case MapK => var (m, j) := ParseMap(toks, i + 1, map[], c); Result(true, name, MapV(m), j)
        case HashK => var (m, j) := ParseMap(toks, i + 1, map[], c); Result(true, name, HashV(m), j)
        case ListK => var (s, j) := ParseList(toks, i + 1, [], c); Result(true, name, ListV(s), j)
        case StringListK => var (s, j) := ParseStrings(toks, i + 1, [], c); Result(true, name, StringListV(s), j)
        case _ => Parse(toks, i + 1, Open(name, k, if mode.Open? then mode.text else ""), c)
  }

  /** The loop that fills a map or hash. */
  function ParseMap(toks: seq<Token>, i: nat, acc: map<string, Variant>, c: Codec): (r: (map<string, Variant>, nat))
    requires i <= |toks|
    ensures i <= r.1 <= |toks|
    decreases |toks| - i, 1
  {
    var r := Parse(toks, i, Closed, c);
    if r.ok then ParseMap(toks, r.pos, acc[r.name := r.value], c) else (acc, r.pos)
  }

  function ParseList(toks: seq<Token>, i: nat, acc: seq<Variant>, c: Codec): (r: (seq<Variant>, nat))
    requires i <= |toks|
    ensures i <= r.1 <= |toks|
    decreases |toks| - i, 1
  {
    var r := Parse(toks, i, Closed, c);
    if r.ok then ParseList(toks, r.pos, acc + [r.value], c) else (acc, r.pos)
  }

  function ParseStrings(toks: seq<Token>, i: nat, acc: seq<string>, c: Codec): (r: (seq<string>, nat))
    requires i <= |toks|
    ensures i <= r.1 <= |toks|
    decreases |toks| - i, 1
  {
    var r := Parse(toks, i, Closed, c);
    if r.ok then ParseStrings(toks, r.pos, acc + [c.asString(r.value)], c) else (acc, r.pos)
  }

  // What counts as a rendering

  predicate Ignorable(t: Token) {
    t.Characters? || t.Other? || t.EndDocument?
  }

  ghost predicate Gap(toks: seq<Token>, i: nat, j: nat) {
    i <= j <= |toks| && forall k | i <= k < j :: Ignorable(toks[k])
  }

  /** The text of a stretch that holds nothing but text (in any number of chunks). */
  ghost function GatherText(toks: seq<Token>, i: nat, j: nat): string
    requires i <= j <= |toks|
    decreases j - i
  {
    if i == j then "" else (if toks[i].Characters? then toks[i].text else "") + GatherText(toks, i + 1, j)
  }

  ghost predicate LeafAt(name: string, k: Kind, text: string, toks: seq<Token>, i: nat, j: nat) {
    && i + 2 <= j <= |toks| && toks[i] == Start(name, TypeName(k)) && toks[j - 1] == End
    && Gap(toks, i + 1, j - 1) && GatherText(toks, i + 1, j - 1) == text
  }

  /** `toks[i..j]` renders the value: its start tag, its children in order with anything
      ignorable between them, and its end tag. */
  ghost predicate RendersAt(name: string, v: Variant, c: Codec, toks: seq<Token>, i: nat, j: nat)
    decreases v, 2
  {
    match v
    case Invalid => LeafAt(name, InvalidK, LeafText(v, c), toks, i, j)
    case Foreign(_) => LeafAt(name, InvalidK, LeafText(v, c), toks, i, j)
    case Leaf(t, _) => LeafAt(name, LeafK(t), LeafText(v, c), toks, i, j)
    case _ =>
      && i + 2 <= j <= |toks| && toks[i] == Start(name, TypeName(KindOfValue(v))) && toks[j - 1] == End
      && KidsAt(v, c, toks, i + 1, j - 1)
  }

  ghost predicate KidsAt(v: Variant, c: Codec, toks: seq<Token>, i: nat, j: nat)
    decreases v, 1
  {
    match v
    case MapV(m) => exists keys :: Enumerates(keys, m) && MapKidsAt(v, keys, c, toks, i, j)
    case HashV(m) => exists keys :: Enumerates(keys, m) && MapKidsAt(v, keys, c, toks, i, j)
    case ListV(items) => ListKidsAt(items, c, toks, i, j)
    case StringListV(strs) => StringKidsAt(strs, c, toks, i, j)
    case _ => false
  }

  /** Maps may be written in any order of their keys, each once. */
  ghost predicate Enumerates(keys: seq<string>, m: map<string, Variant>) {
    && (forall a, b | 0 <= a < b < |keys| :: keys[a] != keys[b])
    && (forall k :: k in keys <==> k in m)
  }

  ghost predicate MapKidsAt(v: Variant, keys: seq<string>, c: Codec, toks: seq<Token>, i: nat, j: nat)
    requires (v.MapV? || v.HashV?) && forall k | k in keys :: k in v.m
    decreases v, 0, |keys|
  {
    if keys == [] then Gap(toks, i, j)
    else
      exists a: nat, b: nat :: MapKidAt(v, keys, c, toks, i, a, b, j)
  }

  ghost predicate MapKidAt(v: Variant, keys: seq<string>, c: Codec, toks: seq<Token>, i: nat, a: nat, b: nat, j: nat)
    requires (v.MapV? || v.HashV?) && keys != [] && forall k | k in keys :: k in v.m
    decreases v, 0, |keys|, 0
  {
    && b <= j && Gap(toks, i, a) && RendersAt(keys[0], v.m[keys[0]], c, toks, a, b)
    && MapKidsAt(v, keys[1..], c, toks, b, j)
  }

  ghost predicate ListKidsAt(items: seq<Variant>, c: Codec, toks: seq<Token>, i: nat, j: nat)
    decreases items, 1
  {
    if items == [] then Gap(toks, i, j)
    else exists a: nat, b: nat :: ListKidAt(items, c, toks, i, a, b, j)
  }

  ghost predicate ListKidAt(items: seq<Variant>, c: Codec, toks: seq<Token>, i: nat, a: nat, b: nat, j: nat)
    requires items != []
    decreases items, 0
  {
    && b <= j && Gap(toks, i, a) && RendersAt("Variant", items[0], c, toks, a, b)
    && ListKidsAt(items[1..], c, toks, b, j)
  }

  ghost predicate StringKidsAt(strs: seq<string>, c: Codec, toks: seq<Token>, i: nat, j: nat)
    decreases strs
  {
    if strs == [] then Gap(toks, i, j)
    else exists a: nat, b: nat :: StringKidAt(strs, c, toks, i, a, b, j)
  }

  ghost predicate StringKidAt(strs: seq<string>, c: Codec, toks: seq<Token>, i: nat, a: nat, b: nat, j: nat)
    requires strs != []
    decreases strs, 0
  {
    && b <= j && Gap(toks, i, a) && LeafAt("Variant", LeafK(StringT), c.toPercent(strs[0]), toks, a, b)
    && StringKidsAt(strs[1..], c, toks, b, j)
  }

  // What survives

  /** What parsing a rendering gives back. */
  function Normalized(v: Variant, c: Codec): Variant
    decreases v, 1
  {
    match v
    case Invalid => Leaf(StringT, Text(""))
    case Foreign(_) => Leaf(StringT, Text(c.asString(v)))
    case Leaf(t, d) =>
      Leaf(t, if t == ByteArrayT && !c.bLazy then Text(BytesOf(d)) else c.convert(t, c.asString(v)))
    case MapV(_) => MapV(NormalizedEntries(v, c))
    case HashV(_) => HashV(NormalizedEntries(v, c))
    case ListV(items) => ListV(NormalizedAll(items, c))
    case StringListV(_) => v
  }

  function NormalizedEntries(v: Variant, c: Codec): (r: map<string, Variant>)
    requires v.MapV? || v.HashV?
    decreases v, 0
  {
    map k | k in v.m :: Normalized(v.m[k], c)
  }

  function NormalizedAll(items: seq<Variant>, c: Codec): (r: seq<Variant>)
    ensures |r| == |items|
  {
    if items == [] then [] else [Normalized(items[0], c)] + NormalizedAll(items[1..], c)
  }

  // The parser undoes every rendering

  lemma {:induction false} SkipGap(toks: seq<Token>, i: nat, a: nat, c: Codec)
    requires Gap(toks, i, a)
    ensures i <= a <= |toks| && Parse(toks, i, Closed, c) == Parse(toks, a, Closed, c)
    decreases a - i
  {
    if i < a {
      assert Ignorable(toks[i]);
      SkipGap(toks, i + 1, a, c);
    }
  }

  lemma {:induction false} ReadText(toks: seq<Token>, i: nat, j: nat, mode: Mode, c: Codec)
    requires Gap(toks, i, j) && j < |toks| && toks[j] == End && mode.Open?
    ensures Parse(toks, i, mode, c) ==
            Result(true, mode.name, LeafOf(mode.kind, mode.text + GatherText(toks, i, j), c), j + 1)
    decreases j - i
  {
    if i == j {
      assert mode.text + "" == mode.text;
    } else {
      assert Ignorable(toks[i]);
      var t := if toks[i].Characters? then toks[i].text else "";
      var mode' := mode.(text := mode.text + t);
      assert mode.text + "" == mode.text;
      ReadText(toks, i + 1, j, mode', c);
      assert mode.text + t + GatherText(toks, i + 1, j) == mode.text + GatherText(toks, i, j);
    }
  }

  lemma ReadLeaf(name: string, k: Kind, text: string, toks: seq<Token>, i: nat, j: nat, c: Codec)
    requires LeafAt(name, k, text, toks, i, j) && (k.LeafK? || k.InvalidK?)
    ensures Parse(toks, i, Closed, c) == Result(true, name, LeafOf(k, text, c), j)
  {
    TypeTable(k);
    ReadText(toks, i + 1, j - 1, Open(name, k, ""), c);
    assert "" + text == text;
  }

  lemma {:induction false} ReadStrings(strs: seq<string>, c: Codec, toks: seq<Token>, i: nat, j: nat, acc: seq<string>)
    requires Faithful(c) && StringKidsAt(strs, c, toks, i, j) && i <= j < |toks| && toks[j] == End
    ensures ParseStrings(toks, i, acc, c) == (acc + strs, j + 1)
    decreases |strs|
  {
    if strs == [] {
      SkipGap(toks, i, j, c);
      assert acc + strs == acc;
    } else {
      var a: nat, b: nat :| StringKidAt(strs, c, toks, i, a, b, j);
      SkipGap(toks, i, a, c);
      ReadLeaf("Variant", LeafK(StringT), c.toPercent(strs[0]), toks, a, b, c);
      ReadStrings(strs[1..], c, toks, b, j, acc + [strs[0]]);
      assert acc + [strs[0]] + strs[1..] == acc + strs;
    }
  }

  lemma {:induction false} ReadList(items: seq<Variant>, c: Codec, toks: seq<Token>, i: nat, j: nat, acc: seq<Variant>)
    requires Faithful(c) && ListKidsAt(items, c, toks, i, j) && i <= j < |toks| && toks[j] == End
    ensures ParseList(toks, i, acc, c) == (acc + NormalizedAll(items, c), j + 1)
    decreases items, 1
  {
    if items == [] {
      SkipGap(toks, i, j, c);
      assert acc + [] == acc;
    } else {
      var a: nat, b: nat :| ListKidAt(items, c, toks, i, a, b, j);
      SkipGap(toks, i, a, c);
      ReadBack("Variant", items[0], c, toks, a, b);
      ReadList(items[1..], c, toks, b, j, acc + [Normalized(items[0], c)]);
      assert acc + [Normalized(items[0], c)] + NormalizedAll(items[1..], c) == acc + NormalizedAll(items, c);
    }
  }

  /** The entries for the given keys, inserted in order. */
  ghost function Fill(acc: map<string, Variant>, m: map<string, Variant>, keys: seq<string>, c: Codec)
    : map<string, Variant>
    requires forall k | k in keys :: k in m
    decreases |keys|
  {
    if keys == [] then acc else Fill(acc[keys[0] := Normalized(m[keys[0]], c)], m, keys[1..], c)
  }

  lemma {:induction false} FillIs(acc: map<string, Variant>, m: map<string, Variant>, keys: seq<string>, c: Codec)
    requires forall k | k in keys :: k in m
    ensures var f := Fill(acc, m, keys, c);
      && (forall k :: k in f <==> k in acc || k in keys)
      && (forall k | k in f :: f[k] == if k in keys then Normalized(m[k], c) else acc[k])
    decreases |keys|
  {
    if keys != [] {
      FillIs(acc[keys[0] := Normalized(m[keys[0]], c)], m, keys[1..], c);
      assert forall k :: k in keys <==> k == keys[0] || k in keys[1..];
    }
  }

  lemma {:induction false} ReadMap(v: Variant, keys: seq<string>, c: Codec, toks: seq<Token>, i: nat, j: nat,
                                   acc: map<string, Variant>)
    requires Faithful(c) && (v.MapV? || v.HashV?) && forall k | k in keys :: k in v.m
    requires MapKidsAt(v, keys, c, toks, i, j) && i <= j < |toks| && toks[j] == End
    ensures ParseMap(toks, i, acc, c) == (Fill(acc, v.m, keys, c), j + 1)
    decreases v, 1, |keys|
  {
    if keys == [] {
      SkipGap(toks, i, j, c);
    } else {
      var a: nat, b: nat :| MapKidAt(v, keys, c, toks, i, a, b, j);
      SkipGap(toks, i, a, c);
      ReadBack(keys[0], v.m[keys[0]], c, toks, a, b);
      ReadMap(v, keys[1..], c, toks, b, j, acc[keys[0] := Normalized(v.m[keys[0]], c)]);
    }
  }

  lemma ReadWholeMap(v: Variant, c: Codec, toks: seq<Token>, i: nat, j: nat)
    requires Faithful(c) && (v.MapV? || v.HashV?) && KidsAt(v, c, toks, i, j) && i <= j < |toks| && toks[j] == End
    ensures ParseMap(toks, i, map[], c) == (NormalizedEntries(v, c), j + 1)
    decreases v, 2
  {
    var keys :| Enumerates(keys, v.m) && MapKidsAt(v, keys, c, toks, i, j);
    ReadMap(v, keys, c, toks, i, j, map[]);
    FillIs(map[], v.m, keys, c);
    assert Fill(map[], v.m, keys, c) == NormalizedEntries(v, c);
  }

  /** Parsing a rendering of any value, from wherever it starts, consumes exactly its tokens and
      gives the value back in normalized form. */
  lemma {:induction false} ReadBack(name: string, v: Variant, c: Codec, toks: seq<Token>, i: nat, j: nat)
    requires Faithful(c) && RendersAt(name, v, c, toks, i, j)
    ensures i < j <= |toks| && Parse(toks, i, Closed, c) == Result(true, name, Normalized(v, c), j)
    decreases v, 3
  {
    match v
    case Invalid => ReadLeaf(name, InvalidK, "", toks, i, j, c);
    case Foreign(d) => ReadLeaf(name, InvalidK, LeafText(v, c), toks, i, j, c);
    case Leaf(t, d) => ReadLeaf(name, LeafK(t), LeafText(v, c), toks, i, j, c);
    case MapV(m) =>
      TypeTable(MapK);
      ReadWholeMap(v, c, toks, i + 1, j - 1);
    case HashV(m) =>
      TypeTable(HashK);
      ReadWholeMap(v, c, toks, i + 1, j - 1);
    case ListV(items) =>
      TypeTable(ListK);
      ReadList(items, c, toks, i + 1, j - 1, []);
      assert [] + NormalizedAll(items, c) == NormalizedAll(items, c);
    case StringListV(strs) =>
      TypeTable(StringListK);
      ReadStrings(strs, c, toks, i + 1, j - 1, []);
      assert [] + strs == strs;
  }

  /** Nothing in the value is lost: no invalid or unnamed leaf, and every leaf is the one
      that its printed form converts back to. */
  ghost predicate Survives(v: Variant, c: Codec) {
    match v
    case Invalid => false
    case Foreign(_) => false
    case Leaf(t, d) => if t == ByteArrayT && !c.bLazy then d.Text? else c.convert(t, c.asString(v)) == d
    case MapV(m) => forall k | k in m :: Survives(m[k], c)
    case HashV(m) => forall k | k in m :: Survives(m[k], c)
    case ListV(items) => forall i | 0 <= i < |items| :: Survives(items[i], c)
    case StringListV(_) => true
  }

  /** Normalizing leaves a value alone exactly when it survives. */
  lemma {:induction false} SurvivesIff(v: Variant, c: Codec)
    ensures Normalized(v, c) == v <==> Survives(v, c)
    decreases v
  {
    match v
    case Invalid =>
    case Foreign(_) =>
    case Leaf(_, _) =>
    case MapV(m) => EntriesSurvive(v, c);
    case HashV(m) => EntriesSurvive(v, c);
    case ListV(items) =>
      forall i | 0 <= i < |items|
        ensures NormalizedAll(items, c)[i] == Normalized(items[i], c)
        ensures Normalized(items[i], c) == items[i] <==> Survives(items[i], c)
      {
        NormalizedAt(items, c, i);
        SurvivesIff(items[i], c);
      }
    case StringListV(_) =>
  }

  lemma EntriesSurvive(v: Variant, c: Codec)
    requires v.MapV? || v.HashV?
    ensures NormalizedEntries(v, c) == v.m <==> forall k | k in v.m :: Survives(v.m[k], c)
    decreases v, 0
  {
    var r := NormalizedEntries(v, c);
    forall k | k in v.m ensures r[k] == v.m[k] <==> Survives(v.m[k], c) {
      SurvivesIff(v.m[k], c);
    }
    if r == v.m {
      forall k | k in v.m ensures Survives(v.m[k], c) {
        assert r[k] == v.m[k];
      }
    }
  }

  lemma {:induction false} NormalizedAt(items: seq<Variant>, c: Codec, i: nat)
    requires i < |items|
    ensures NormalizedAll(items, c)[i] == Normalized(items[i], c)
    decreases i
  {
    if i > 0 {
      NormalizedAt(items[1..], c, i - 1);
    }
  }

  /** Parsing a rendering returns the same value exactly when the value survives. */
  lemma RoundTrip(name: string, v: Variant, c: Codec, toks: seq<Token>, i: nat, j: nat)
    requires Faithful(c) && RendersAt(name, v, c, toks, i, j)
    ensures i < j <= |toks| && (Parse(toks, i, Closed, c) == Result(true, name, v, j) <==> Survives(v, c))
  {
    ReadBack(name, v, c, toks, i, j);
    SurvivesIff(v, c);
  }

  // Renderings stay renderings when more is written after them

  lemma {:induction false} GatherExtend(toks: seq<Token>, more: seq<Token>, i: nat, j: nat)
    requires toks <= more && i <= j <= |toks|
    ensures GatherText(more, i, j) == GatherText(toks, i, j)
    decreases j - i
  {
    if i < j {
      GatherExtend(toks, more, i + 1, j);
    }
  }

  lemma LeafExtend(name: string, k: Kind, text: string, toks: seq<Token>, more: seq<Token>, i: nat, j: nat)
    requires toks <= more && LeafAt(name, k, text, toks, i, j)
    ensures LeafAt(name, k, text, more, i, j)
  {
    GatherExtend(toks, more, i + 1, j - 1);
  }

  lemma {:induction false} Extend(name: string, v: Variant, c: Codec, toks: seq<Token>,
                                  more: seq<Token>, i: nat, j: nat)
    requires toks <= more && RendersAt(name, v, c, toks, i, j)
    ensures RendersAt(name, v, c, more, i, j)
    decreases v, 3
  {
    match v
    case Invalid => LeafExtend(name, InvalidK, LeafText(v, c), toks, more, i, j);
    case Foreign(_) => LeafExtend(name, InvalidK, LeafText(v, c), toks, more, i, j);
    case Leaf(t, _) => LeafExtend(name, LeafK(t), LeafText(v, c), toks, more, i, j);
    case MapV(m) =>
      var keys :| Enumerates(keys, m) && MapKidsAt(v, keys, c, toks, i + 1, j - 1);
      ExtendMap(v, keys, c, toks, more, i + 1, j - 1);
    case HashV(m) =>
      var keys :| Enumerates(keys, m) && MapKidsAt(v, keys, c, toks, i + 1, j - 1);
      ExtendMap(v, keys, c, toks, more, i + 1, j - 1);
    case ListV(items) => ExtendList(items, c, toks, more, i + 1, j - 1);
    case StringListV(strs) => ExtendStrings(strs, c, toks, more, i + 1, j - 1);
  }

  lemma {:induction false} ExtendMap(v: Variant, keys: seq<string>, c: Codec, toks: seq<Token>,
                                     more: seq<Token>, i: nat, j: nat)
    requires toks <= more && (v.MapV? || v.HashV?) && forall k | k in keys :: k in v.m
    requires MapKidsAt(v, keys, c, toks, i, j)
    ensures MapKidsAt(v, keys, c, more, i, j)
    decreases v, 1, |keys|
  {
    if keys != [] {
      var a: nat, b: nat :| MapKidAt(v, keys, c, toks, i, a, b, j);
      Extend(keys[0], v.m[keys[0]], c, toks, more, a, b);
      ExtendMap(v, keys[1..], c, toks, more, b, j);
      assert MapKidAt(v, keys, c, more, i, a, b, j);
    }
  }

  lemma {:induction false} ExtendList(items: seq<Variant>, c: Codec, toks: seq<Token>, more: seq<Token>, i: nat, j: nat)
    requires toks <= more && ListKidsAt(items, c, toks, i, j)
    ensures ListKidsAt(items, c, more, i, j)
    decreases items, 1
  {
    if items != [] {
      var a: nat, b: nat :| ListKidAt(items, c, toks, i, a, b, j);
      Extend("Variant", items[0], c, toks, more, a, b);
      ExtendList(items[1..], c, toks, more, b, j);
      assert ListKidAt(items, c, more, i, a, b, j);
    }
  }

  lemma {:induction false} ExtendStrings(strs: seq<string>, c: Codec, toks: seq<Token>,
                                         more: seq<Token>, i: nat, j: nat)
    requires toks <= more && StringKidsAt(strs, c, toks, i, j)
    ensures StringKidsAt(strs, c, more, i, j)
    decreases |strs|
  {
    if strs != [] {
      var a: nat, b: nat :| StringKidAt(strs, c, toks, i, a, b, j);
      LeafExtend("Variant", LeafK(StringT), c.toPercent(strs[0]), toks, more, a, b);
      ExtendStrings(strs[1..], c, toks, more, b, j);
      assert StringKidAt(strs, c, more, i, a, b, j);
    }
  }

  // Appending one more child

  lemma {:induction false} AppendItem(items: seq<Variant>, x: Variant, c: Codec, toks: seq<Token>,
                                      i: nat, j: nat, b: nat)
    requires ListKidsAt(items, c, toks, i, j) && RendersAt("Variant", x, c, toks, j, b) && i <= j <= b <= |toks|
    ensures ListKidsAt(items + [x], c, toks, i, b)
    decreases |items|
  {
    if items == [] {
      assert (items + [x])[1..] == [];
      assert ListKidAt(items + [x], c, toks, i, j, b, b);
    } else {
      var a: nat, e: nat :| ListKidAt(items, c, toks, i, a, e, j);
      AppendItem(items[1..], x, c, toks, e, j, b);
      assert (items + [x])[1..] == items[1..] + [x];
      assert ListKidAt(items + [x], c, toks, i, a, e, b);
    }
  }

  lemma {:induction false} AppendString(strs: seq<string>, x: string, c: Codec, toks: seq<Token>,
                                        i: nat, j: nat, b: nat)
    requires StringKidsAt(strs, c, toks, i, j) && i <= j <= b <= |toks|
    requires LeafAt("Variant", LeafK(StringT), c.toPercent(x), toks, j, b)
    ensures StringKidsAt(strs + [x], c, toks, i, b)
    decreases |strs|
  {
    if strs == [] {
      assert (strs + [x])[1..] == [];
      assert StringKidAt(strs + [x], c, toks, i, j, b, b);
    } else {
      var a: nat, e: nat :| StringKidAt(strs, c, toks, i, a, e, j);
      AppendString(strs[1..], x, c, toks, e, j, b);
      assert (strs + [x])[1..] == strs[1..] + [x];
      assert StringKidAt(strs + [x], c, toks, i, a, e, b);
    }
  }

  lemma {:induction false} AppendEntry(v: Variant, keys: seq<string>, x: string, c: Codec, toks: seq<Token>,
                                       i: nat, j: nat, b: nat)
    requires (v.MapV? || v.HashV?) && x in v.m && forall k | k in keys :: k in v.m
    requires MapKidsAt(v, keys, c, toks, i, j) && RendersAt(x, v.m[x], c, toks, j, b) && i <= j <= b <= |toks|
    ensures MapKidsAt(v, keys + [x], c, toks, i, b)
    decreases |keys|
  {
    if keys == [] {
      assert (keys + [x])[1..] == [];
      assert MapKidAt(v, keys + [x], c, toks, i, j, b, b);
    } else {
      var a: nat, e: nat :| MapKidAt(v, keys, c, toks, i, a, e, j);
      AppendEntry(v, keys[1..], x, c, toks, e, j, b);
      assert (keys + [x])[1..] == keys[1..] + [x];
      assert MapKidAt(v, keys + [x], c, toks, i, a, e, b);
    }
  }

  /** The writer's stream. */
  class Writer {
    var toks: seq<Token>

    constructor ()
      ensures toks == []
    {
      toks := [];
    }

    /** A leaf: start tag, text if there is any, end tag. */
    method WriteLeaf(name: string, k: Kind, text: string)
      modifies this
      ensures old(toks) <= toks && LeafAt(name, k, text, toks, |old(toks)|, |toks|)
    {
      ghost var i := |toks|;
      toks := toks + [Start(name, TypeName(k))];
      if text != "" {
        toks := toks + [Characters(text)];
      }
      toks := toks + [End];
      assert GatherText(toks, |toks| - 1, |toks| - 1) == "";
      assert text + "" == text;
      assert GatherText(toks, i + 1, |toks| - 1) == text;
    }

    method WriteStrings(strs: seq<string>, c: Codec)
      modifies this
      ensures old(toks) <= toks && StringKidsAt(strs, c, toks, |old(toks)|, |toks|)
    {
      ghost var i := |toks|;
      for k := 0 to |strs|
        invariant old(toks) <= toks && StringKidsAt(strs[..k], c, toks, i, |toks|)
      {
        ghost var before := toks;
        WriteLeaf("Variant", LeafK(StringT), c.toPercent(strs[k]));
        ExtendStrings(strs[..k], c, before, toks, i, |before|);
        AppendString(strs[..k], strs[k], c, toks, i, |before|, |toks|);
        assert strs[..k + 1] == strs[..k] + [strs[k]];
      }
      assert strs[..|strs|] == strs;
    }

    method WriteItems(items: seq<Variant>, c: Codec)
      modifies this
      ensures old(toks) <= toks && ListKidsAt(items, c, toks, |old(toks)|, |toks|)
      decreases items, 1
    {
      ghost var i := |toks|;
      for k := 0 to |items|
        invariant old(toks) <= toks && ListKidsAt(items[..k], c, toks, i, |toks|)
      {
        ghost var before := toks;
        Serialize("Variant", items[k], c);
        ExtendList(items[..k], c, before, toks, i, |before|);
        AppendItem(items[..k], items[k], c, toks, i, |before|, |toks|);
        assert items[..k + 1] == items[..k] + [items[k]];
      }
      assert items[..|items|] == items;
    }

    /** Writes the entries of a map in some order. */
    method WriteEntries(v: Variant, c: Codec)
      requires v.MapV? || v.HashV?
      modifies this
      ensures old(toks) <= toks && KidsAt(v, c, toks, |old(toks)|, |toks|)
      decreases v, 0
    {
      ghost var i := |toks|;
      ghost var keys: seq<string> := [];
      var left := v.m.Keys;
      while left != {}
        invariant old(toks) <= toks && left <= v.m.Keys
        invariant forall k :: k in keys <==> k in v.m && k !in left
        invariant forall a, b | 0 <= a < b < |keys| :: keys[a] != keys[b]
        invariant MapKidsAt(v, keys, c, toks, i, |toks|)
        decreases |left|
      {
        var k :| k in left;
        ghost var before := toks;
        Serialize(k, v.m[k], c);
        ExtendMap(v, keys, c, before, toks, i, |before|);
        AppendEntry(v, keys, k, c, toks, i, |before|, |toks|);
        left := left - {k};
        keys := keys + [k];
      }
      assert Enumerates(keys, v.m);
    }

    /** Writes a value: what it appends to the stream is a rendering of the value. */
    method Serialize(name: string, v: Variant, c: Codec)
      modifies this
      ensures old(toks) <= toks && RendersAt(name, v, c, toks, |old(toks)|, |toks|)
      decreases v, 1
    {
      if v.Invalid? {
        WriteLeaf(name, InvalidK, "");
      } else if v.Foreign? {
        WriteLeaf(name, InvalidK, c.toPercent(c.asString(v)));
      } else if v.Leaf? {
        WriteLeaf(name, LeafK(v.t),
                  if v.t == ByteArrayT && !c.bLazy then c.toBase64(BytesOf(v.data)) else c.toPercent(c.asString(v)));
      } else {
        toks := toks + [Start(name, TypeName(KindOfValue(v)))];
        ghost var i := |toks|;
        if v.ListV? {
          WriteItems(v.items, c);
        } else if v.StringListV? {
          WriteStrings(v.strs, c);
        } else {
          WriteEntries(v, c);
        }
        ghost var before := toks;
        toks := toks + [End];
        KidsExtend(v, c, before, toks, i, |before|);
      }
    }
  }

  lemma KidsExtend(v: Variant, c: Codec, toks: seq<Token>, more: seq<Token>, i: nat, j: nat)
    requires toks <= more && KidsAt(v, c, toks, i, j)
    ensures KidsAt(v, c, more, i, j)
  {
    match v
    case MapV(m) =>
      var keys :| Enumerates(keys, m) && MapKidsAt(v, keys, c, toks, i, j);
      ExtendMap(v, keys, c, toks, more, i, j);
    case HashV(m) =>
      var keys :| Enumerates(keys, m) && MapKidsAt(v, keys, c, toks, i, j);
      ExtendMap(v, keys, c, toks, more, i, j);
    case ListV(items) => ExtendList(items, c, toks, more, i, j);
    case StringListV(strs) => ExtendStrings(strs, c, toks, more, i, j);
  }

  /** The reader's stream and cursor. */
  class Reader {
    const toks: seq<Token>
    var pos: nat

    constructor (toks: seq<Token>)
      ensures this.toks == toks && pos == 0
    {
      this.toks := toks;
      pos := 0;
    }

    ghost predicate Valid()
      reads this
    {
      pos <= |toks|
    }

    method ReadEntries(c: Codec) returns (m: map<string, Variant>)
      requires Valid()
      modifies this`pos
      ensures Valid() && (m, pos) == ParseMap(toks, old(pos), map[], c)
      decreases |toks| - pos, 1
    {
      m := map[];
      while true
        invariant Valid() && old(pos) <= pos
        invariant ParseMap(toks, pos, m, c) == ParseMap(toks, old(pos), map[], c)
        decreases |toks| - pos
      {
        var ok, name, item := ParseOne(c);
        if !ok {
          break;
        }
        m := m[name := item];
      }
    }

    method ReadItems(c: Codec) returns (s: seq<Variant>)
      requires Valid()
      modifies this`pos
      ensures Valid() && (s, pos) == ParseList(toks, old(pos), [], c)
      decreases |toks| - pos, 1
    {
      s := [];
      while true
        invariant Valid() && old(pos) <= pos
        invariant ParseList(toks, pos, s, c) == ParseList(toks, old(pos), [], c)
        decreases |toks| - pos
      {
        var ok, name, item := ParseOne(c);
        if !ok {
          break;
        }
        s := s + [item];
      }
    }

    method ReadTexts(c: Codec) returns (s: seq<string>)
      requires Valid()
      modifies this`pos
      ensures Valid() && (s, pos) == ParseStrings(toks, old(pos), [], c)
      decreases |toks| - pos, 1
    {
      s := [];
      while true
        invariant Valid() && old(pos) <= pos
        invariant ParseStrings(toks, pos, s, c) == ParseStrings(toks, old(pos), [], c)
        decreases |toks| - pos
      {
        var ok, name, item := ParseOne(c);
        if !ok {
          break;
        }
        s := s + [c.asString(item)];
      }
    }

    /** One call of `Parse`. */
    method ParseOne(c: Codec) returns (ok: bool, name: string, value: Variant)
      requires Valid()
      modifies this`pos
      ensures Valid() && Result(ok, name, value, pos) == Parse(toks, old(pos), Closed, c)
      decreases |toks| - pos, 0
    {
      var mode := Closed;
      while pos < |toks|
        invariant Valid() && old(pos) <= pos
        invariant Parse(toks, pos, mode, c) == Parse(toks, old(pos), Closed, c)
        decreases |toks| - pos
      {
        var tok := toks[pos];
        pos := pos + 1;
        match tok
        case Broken =>
          pos := |toks|;
          return false, "", NONE;
        case EndDocument =>
        case Other =>
        case Characters(t) =>
          if mode.Open? {
            mode := mode.(text := mode.text + t);
          }
        case End =>
          if mode.Open? {
            return true, mode.name, LeafOf(mode.kind, mode.text, c);
          }
          return false, "", NONE;
        case Start(n, typ) =>
          var k := KindOf(typ);
          match k
          case MapK =>
            var m := ReadEntries(c);
            return true, n, MapV(m);
          case HashK =>
            var m := ReadEntries(c);
            return true, n, HashV(m);
          case ListK =>
            var s := ReadItems(c);
            return true, n, ListV(s);
          case StringListK =>
            var s := ReadTexts(c);
            return true, n, StringListV(s);
          case _ => mode := Open(n, k, if mode.Open? then mode.text else "");
      }
      return false, "", NONE;
    }
  }

  /** A whole document written and read again: start of document, the value, end of document. */
  method WriteThenRead(v: Variant, c: Codec) returns (r: Variant)
    requires Faithful(c)
    ensures r == Normalized(v, c) && (r == v <==> Survives(v, c))
  {
    var w := new Writer();
    w.toks := [Other];
    w.Serialize("Variant", v, c);
    ghost var body := w.toks;
    w.toks := w.toks + [EndDocument];
    var reader := new Reader(w.toks);
    var ok, name, value := reader.ParseOne(c);
    Extend("Variant", v, c, body, w.toks, 1, |body|);
    SkipGap(w.toks, 0, 1, c);
    ReadBack("Variant", v, c, w.toks, 1, |body|);
    SurvivesIff(v, c);
    r := value;
  }
}
