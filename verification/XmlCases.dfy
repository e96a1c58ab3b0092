/** What the XML parser makes of single leaves, repeated keys and streams that end too early. */
module XmlCases {
  import opened Xml

  /** Values that are lost come back as strings: nothing as an empty one, a value whose type has no
      name as what it prints. */
  lemma LostLeaves(name: string, v: Variant, c: Codec, toks: seq<Token>, i: nat, j: nat)
    requires Faithful(c) && (v.Invalid? || v.Foreign?) && RendersAt(name, v, c, toks, i, j)
    ensures Parse(toks, i, Closed, c) ==
            Result(true, name, Leaf(StringT, Text(if v.Invalid? then "" else c.asString(v))), j)
  {
    ReadBack(name, v, c, toks, i, j);
  }

  /** Every other leaf keeps its type and holds what its printed form converts to; bytes are kept as
      they are unless the lazy form is used. */
  lemma KeptLeaves(name: string, v: Variant, c: Codec, toks: seq<Token>, i: nat, j: nat)
    requires Faithful(c) && v.Leaf? && RendersAt(name, v, c, toks, i, j)
    ensures Parse(toks, i, Closed, c) ==
            Result(true, name, Leaf(v.t,
              if v.t == ByteArrayT && !c.bLazy && v.data.Text? then v.data
              else if v.t == ByteArrayT && !c.bLazy then Text("")
              else c.convert(v.t, c.asString(v))), j)
  {
    ReadBack(name, v, c, toks, i, j);
  }

  /** An element without a type is a string. */
  lemma UntypedLeaf(name: string, text: string, c: Codec, toks: seq<Token>)
    requires toks == [Start(name, ""), Characters(text), End]
    ensures Parse(toks, 0, Closed, c) == Result(true, name, Leaf(StringT, Text(c.fromPercent(text))), 3)
  {
    assert GatherText(toks, 1, 2) == text by { assert GatherText(toks, 2, 2) == ""; }
    ReadText(toks, 1, 2, Open(name, InvalidK, ""), c);
    assert "" + text == text;
  }

  /** Bytes are Base64 or, in the lazy form, percent-encoded text. */
  lemma BytesLeaf(name: string, text: string, c: Codec, toks: seq<Token>)
    requires toks == [Start(name, "ByteArray"), Characters(text), End]
    ensures Parse(toks, 0, Closed, c) ==
            Result(true, name,
              Leaf(ByteArrayT,
                if c.bLazy then c.convert(ByteArrayT, c.fromPercent(text)) else Text(c.fromBase64(text))), 3)
  {
    assert GatherText(toks, 1, 2) == text by { assert GatherText(toks, 2, 2) == ""; }
    ReadText(toks, 1, 2, Open(name, LeafK(ByteArrayT), ""), c);
    assert "" + text == text;
  }

  /** An end tag, an error or the end of the stream instead of a start tag is a failure; an error
      uses up the stream. */
  lemma NoElement(toks: seq<Token>, i: nat, c: Codec)
    requires i < |toks|
    ensures toks[i] == End ==> !Parse(toks, i, Closed, c).ok && Parse(toks, i, Closed, c).pos == i + 1
    ensures toks[i] == Broken ==> !Parse(toks, i, Closed, c).ok && Parse(toks, i, Closed, c).pos == |toks|
    ensures !Parse(toks, |toks|, Closed, c).ok
  {
  }

  /** A list cut off behind some of its items still counts as the list of those items. */
  lemma {:induction false} CutOffItems(
    items: seq<Variant>, c: Codec, toks: seq<Token>, i: nat, j: nat, acc: seq<Variant>)
    requires Faithful(c) && ListKidsAt(items, c, toks, i, j) && i <= j <= |toks| && (j < |toks| ==> toks[j] == Broken)
    ensures ParseList(toks, i, acc, c) == (acc + NormalizedAll(items, c), |toks|)
    decreases items
  {
    if items == [] {
      SkipGap(toks, i, j, c);
      assert acc + [] == acc;
    } else {
      var a: nat, b: nat :| ListKidAt(items, c, toks, i, a, b, j);
      SkipGap(toks, i, a, c);
      ReadBack("Variant", items[0], c, toks, a, b);
      CutOffItems(items[1..], c, toks, b, j, acc + [Normalized(items[0], c)]);
      assert acc + [Normalized(items[0], c)] + NormalizedAll(items[1..], c) == acc + NormalizedAll(items, c);
    }
  }

  lemma CutOffList(name: string, items: seq<Variant>, c: Codec, toks: seq<Token>, i: nat, j: nat)
    requires Faithful(c) && i < j <= |toks| && toks[i] == Start(name, "List")
    requires ListKidsAt(items, c, toks, i + 1, j) && (j < |toks| ==> toks[j] == Broken)
    ensures Parse(toks, i, Closed, c) == Result(true, name, ListV(NormalizedAll(items, c)), |toks|)
  {
    CutOffItems(items, c, toks, i + 1, j, []);
    assert [] + NormalizedAll(items, c) == NormalizedAll(items, c);
  }

  /** Of two entries with one key the later one counts. */
  lemma RepeatedKey(name: string, key: string, v: Variant, w: Variant, c: Codec, toks: seq<Token>, a: nat, b: nat)
    requires Faithful(c) && 1 <= a <= b < |toks| && toks[0] == Start(name, "Map") && toks[b] == End
    requires RendersAt(key, v, c, toks, 1, a) && RendersAt(key, w, c, toks, a, b)
    ensures Parse(toks, 0, Closed, c) == Result(true, name, MapV(map[key := Normalized(w, c)]), b + 1)
  {
    EntryStep(key, v, c, toks, 1, a, map[]);
    EntryStep(key, w, c, toks, a, b, map[key := Normalized(v, c)]);
    NoElement(toks, b, c);
    assert map[key := Normalized(v, c)][key := Normalized(w, c)] == map[key := Normalized(w, c)];
  }

  lemma EntryStep(key: string, v: Variant, c: Codec, toks: seq<Token>, i: nat, j: nat, acc: map<string, Variant>)
    requires Faithful(c) && RendersAt(key, v, c, toks, i, j)
    ensures i < j <= |toks| && ParseMap(toks, i, acc, c) == ParseMap(toks, j, acc[key := Normalized(v, c)], c)
  {
    ReadBack(key, v, c, toks, i, j);
  }
}
