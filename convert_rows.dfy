/** The rows of TestUnpackValue and TestPackValue, stated about the model.
    Each row is stated for arbitrary strings and values in the positions
    where the test uses particular ones: any Lua value that a table can hold
    on the unpacking side, any Go value that does not pack to nil on the
    packing side. */
module ConvertRows {
  import opened Convert

  lemma SmallRenderings()
    ensures IntToString(1) == "1" && IntToString(2) == "2"
  {
  }

  lemma RenderedPair(a: LKey, b: LKey)
    ensures RenderedKeys({a, b}) == {Render(a), Render(b)}
  {
  }

  /** A table of one key that is not a sequence unpacks to a mapping of one entry. */
  lemma UnpackSingleMapping(k: LKey, v: LValue)
    requires !k.IntKey? || k.i != 1
    ensures Unpack(LTable(map[k := v])) == Map(map[Render(k) := Unpack(v)])
  {
    var t := map[k := v];
    assert t.Keys == {k};
    UnpackOneKey(t, k);
  }

  /** `nil`, `true`, `false`, `1`, `"hello"`. */
  lemma UnpackScalarRows(b: bool, x: real, s: string)
    ensures Unpack(LNil) == Nil
    ensures Unpack(LBool(b)) == Bool(b)
    ensures Unpack(LNumber(x)) == Num(x)
    ensures Unpack(LString(s)) == Str(s)
  {
  }

  /** `{"hello", "world"}` becomes a sequence. */
  lemma UnpackListRow(v1: LValue, v2: LValue)
    requires IsLuaValue(LTable(map[IntKey(1) := v1, IntKey(2) := v2]))
    ensures Unpack(LTable(map[IntKey(1) := v1, IntKey(2) := v2])) == Seq([Unpack(v1), Unpack(v2)])
  {
    var t := map[IntKey(1) := v1, IntKey(2) := v2];
    TwoKeys();
    UnpackSequence(t, 2);
    PairSeq(Unpack(LTable(t)).elems);
  }

  lemma TwoKeys()
    ensures KeyRange(2) == {IntKey(1), IntKey(2)}
  {
    assert forall k :: k in KeyRange(2) ==> k == IntKey(1) || k == IntKey(2);
  }

  /** A sequence of length two is the display of its two elements. */
  lemma PairSeq<V>(u: seq<V>)
    requires |u| == 2
    ensures u == [u[0], u[1]]
  {
  }

  /** In a table of two keys with different renderings, each key supplies its own. */
  lemma SuppliesOfPair(t: map<LKey, LValue>, k: LKey, other: LKey)
    requires t.Keys == {k, other}
    requires Render(k) != Render(other)
    ensures Supplies(t, k)
  {
    match k
    case StrKey(_) =>
    case FracKey(r) =>
      assert StrKey(r) != k && StrKey(r) != other;
    case IntKey(i) =>
      assert StrKey(IntToString(i)) != k && StrKey(IntToString(i)) != other;
      assert FracKey(IntToString(i)) != k && FracKey(IntToString(i)) != other;
  }

  /** A table of two entries that is not a sequence unpacks to a mapping of
      two entries when both keys supply their renderings. */
  lemma UnpackPairMapping(t: map<LKey, LValue>, k1: LKey, k2: LKey)
    requires t.Keys == {k1, k2}
    requires Render(k1) != Render(k2)
    requires !HasSequenceKeys(t.Keys)
    ensures Unpack(LTable(t)) == Map(map[Render(k1) := Unpack(t[k1]), Render(k2) := Unpack(t[k2])])
  {
    UnpackMapping(t);
    RenderedPair(k1, k2);
    SuppliesOfPair(t, k1, k2);
    SuppliesOfPair(t, k2, k1);
    PairMap(Unpack(LTable(t)).fields, Render(k1), Render(k2));
  }

  /** A map with exactly two keys is the display of its two entries. */
  lemma PairMap<K, V>(f: map<K, V>, a: K, b: K)
    requires f.Keys == {a, b}
    ensures f == map[a := f[a], b := f[b]]
  {
  }

  /** `{hello="world", [1]="one"}` is not a sequence: key 1 becomes "1". */
  lemma UnpackKeyOneAndStringRow(s: string, v: LValue, w: LValue)
    requires s != "1"
    requires IsLuaValue(LTable(map[StrKey(s) := v, IntKey(1) := w]))
    ensures Unpack(LTable(map[StrKey(s) := v, IntKey(1) := w]))
            == Map(map[s := Unpack(v), "1" := Unpack(w)])
  {
    SmallRenderings();
    assert !HasSequenceKeys({StrKey(s), IntKey(1)}) by {
      UnpackKeyOneWithStringKey(map[StrKey(s) := v, IntKey(1) := w], s);
      ClassifyCorrect({StrKey(s), IntKey(1)});
    }
    UnpackPairMapping(map[StrKey(s) := v, IntKey(1) := w], StrKey(s), IntKey(1));
  }

  /** `{[1]="one"}` is a sequence of one element. */
  lemma UnpackKeyOneRow(v: LValue)
    requires IsLuaValue(LTable(map[IntKey(1) := v]))
    ensures Unpack(LTable(map[IntKey(1) := v])) == Seq([Unpack(v)])
  {
    var t := map[IntKey(1) := v];
    assert t.Keys == KeyRange(1);
    UnpackSequence(t, 1);
  }

  /** `{[1.1]="one"}` is a mapping keyed by the rendering "1.1". */
  lemma UnpackFractionalRow(r: string, v: LValue)
    requires IsLuaValue(LTable(map[FracKey(r) := v]))
    ensures Unpack(LTable(map[FracKey(r) := v])) == Map(map[r := Unpack(v)])
  {
    UnpackSingleMapping(FracKey(r), v);
  }

  /** `{[2]="two"}` does not start at 1, so it is a mapping with key "2". */
  lemma UnpackKeyTwoRow(v: LValue)
    requires IsLuaValue(LTable(map[IntKey(2) := v]))
    ensures Unpack(LTable(map[IntKey(2) := v])) == Map(map["2" := Unpack(v)])
  {
    SmallRenderings();
    UnpackSingleMapping(IntKey(2), v);
  }

  /** `{3, 2, "one"}` becomes a sequence of three. */
  lemma UnpackTripleRow(v1: LValue, v2: LValue, v3: LValue)
    requires IsLuaValue(LTable(map[IntKey(1) := v1, IntKey(2) := v2, IntKey(3) := v3]))
    ensures Unpack(LTable(map[IntKey(1) := v1, IntKey(2) := v2, IntKey(3) := v3])) == Seq([Unpack(v1), Unpack(v2), Unpack(v3)])
  {
    var t := map[IntKey(1) := v1, IntKey(2) := v2, IntKey(3) := v3];
    assert t.Keys == KeyRange(3) by {
      ThreeKeys();
    }
    UnpackSequence(t, 3);
    TripleSeq(Unpack(LTable(t)).elems);
  }

  /** A sequence of length three is the display of its three elements. */
  lemma TripleSeq<V>(u: seq<V>)
    requires |u| == 3
    ensures u == [u[0], u[1], u[2]]
  {
  }

  lemma ThreeKeys()
    ensures KeyRange(3) == {IntKey(1), IntKey(2), IntKey(3)}
  {
    assert forall k :: k in KeyRange(3) ==> k == IntKey(1) || k == IntKey(2) || k == IntKey(3);
  }

  /** `{array={3, 2, "one"}}`: a mapping whose value is a sequence. */
  lemma UnpackNestedListRow(s: string, v1: LValue, v2: LValue, v3: LValue)
    requires IsLuaValue(LTable(map[StrKey(s) := LTable(map[IntKey(1) := v1, IntKey(2) := v2, IntKey(3) := v3])]))
    ensures Unpack(LTable(map[StrKey(s) := LTable(map[IntKey(1) := v1, IntKey(2) := v2, IntKey(3) := v3])]))
            == Map(map[s := Seq([Unpack(v1), Unpack(v2), Unpack(v3)])])
  {
    var outer := map[StrKey(s) := LTable(map[IntKey(1) := v1, IntKey(2) := v2, IntKey(3) := v3])];
    assert IsLuaValue(outer[StrKey(s)]);
    UnpackTripleRow(v1, v2, v3);
    UnpackSingleMapping(StrKey(s), LTable(map[IntKey(1) := v1, IntKey(2) := v2, IntKey(3) := v3]));
  }

  /** `{{hello="world", foo="bar"}, true}`: a sequence whose first value is a mapping. */
  lemma UnpackNestedMapRow(s1: string, w1: LValue, s2: string, w2: LValue, v: LValue)
    requires s1 != s2
    requires IsLuaValue(LTable(map[IntKey(1) := LTable(map[StrKey(s1) := w1, StrKey(s2) := w2]), IntKey(2) := v]))
    ensures Unpack(LTable(map[IntKey(1) := LTable(map[StrKey(s1) := w1, StrKey(s2) := w2]), IntKey(2) := v]))
            == Seq([Map(map[s1 := Unpack(w1), s2 := Unpack(w2)]), Unpack(v)])
  {
    var obj := map[StrKey(s1) := w1, StrKey(s2) := w2];
    assert !HasSequenceKeys({StrKey(s1), StrKey(s2)}) by {
      NoKeyOneNotSequence({StrKey(s1), StrKey(s2)});
    }
    UnpackPairMapping(obj, StrKey(s1), StrKey(s2));
    UnpackListRow(LTable(obj), v);
  }

  /** `nil`, nil slice, nil map, booleans, integers and strings. */
  lemma PackScalarRows(b: bool, i: int, s: string)
    ensures Unpack(Pack(HNil)) == Nil && Unpack(Pack(HNilSlice)) == Nil && Unpack(Pack(HNilMap)) == Nil
    ensures Unpack(Pack(HBool(b))) == Bool(b)
    ensures Unpack(Pack(HInt(i))) == Num(i as real)
    ensures Unpack(Pack(HString(s))) == Str(s)
  {
  }

  /** `[]string{"hello", "world"}`. */
  lemma PackListRow(x1: Host, x2: Host)
    requires !IsNilKind(x1) && !IsNilKind(x2)
    ensures Unpack(Pack(HSlice([x1, x2]))) == Seq([Unpack(Pack(x1)), Unpack(Pack(x2))])
  {
    PackPair(x1, x2);
    PackIsLuaValue(HSlice([x1, x2]));
    UnpackListRow(Pack(x1), Pack(x2));
  }

  lemma PackPair(x1: Host, x2: Host)
    requires !IsNilKind(x1) && !IsNilKind(x2)
    ensures Pack(HSlice([x1, x2])) == LTable(map[IntKey(1) := Pack(x1), IntKey(2) := Pack(x2)])
  {
    var xs := [x1, x2];
    PackSliceKeys(xs);
    TwoKeys();
    PackSliceAt(xs, 0);
    PackSliceAt(xs, 1);
    MapsEqual(Pack(HSlice(xs)).entries, map[IntKey(1) := Pack(x1), IntKey(2) := Pack(x2)]);
  }

  /** The same slice with a nil first element: the table has only key 2, so
      the result is the mapping {"2": x}, not a sequence. */
  lemma PackLeadingNilRow(x: Host)
    requires !IsNilKind(x)
    ensures Unpack(Pack(HSlice([HNil, x]))) == Map(map["2" := Unpack(Pack(x))])
  {
    PackLeadingNil(x);
    SmallRenderings();
    UnpackSingleMapping(IntKey(2), Pack(x));
  }

  lemma PackLeadingNil(x: Host)
    requires !IsNilKind(x)
    ensures Pack(HSlice([HNil, x])) == LTable(map[IntKey(2) := Pack(x)])
  {
    var t := Pack(HSlice([HNil, x])).entries;
    assert IntKey(2) in t && IntKey(1) !in t;
    forall k | k in t ensures k == IntKey(2) {
      assert k in KeyRange(2);
    }
    MapsEqual(t, map[IntKey(2) := Pack(x)]);
  }

  /** `map[string]string{"hello": "world"}`, `{"1": "one"}` and
      `map[float32]string{1.1: "one"}`: one entry with a string (or
      rendered float) key becomes a mapping with that key, even "1". */
  lemma PackSingleStringKeyRow(h: Host, s: string, x: Host)
    requires h == HStrMap(map[s := x]) || h == HFloatMap(map[s := x])
    requires !IsNilKind(x)
    ensures Unpack(Pack(h)) == Map(map[s := Unpack(Pack(x))])
  {
    var m := map[s := x];
    assert LiveKeys(m) == {s} by {
      assert s in LiveKeys(m);
    }
    UnpackPackedOneKey(h, m, s);
  }

  /** `map[int]string{1: "one"}`: the key becomes the string "1", and the
      result is a mapping, not a sequence. */
  lemma PackIntMapRow(x: Host)
    requires !IsNilKind(x)
    ensures Unpack(Pack(HIntMap(map[1 := x]))) == Map(map["1" := Unpack(Pack(x))])
  {
    var m := map[1 := x];
    SmallRenderings();
    assert LiveKeys(m) == {1} by {
      assert 1 in LiveKeys(m);
    }
    UnpackPackedOneIntKey(m, 1);
  }

  /** `map[string][]string{"array": {"hello", "world"}}`. */
  lemma PackNestedListRow(s: string, x1: Host, x2: Host)
    requires !IsNilKind(x1) && !IsNilKind(x2)
    ensures Unpack(Pack(HStrMap(map[s := HSlice([x1, x2])])))
            == Map(map[s := Seq([Unpack(Pack(x1)), Unpack(Pack(x2))])])
  {
    PackListRow(x1, x2);
    PackSingleStringKeyRow(HStrMap(map[s := HSlice([x1, x2])]), s, HSlice([x1, x2]));
  }

  /** `[]map[string]float64{{"foo": 1.23}, {"bar": 4.56}}`. */
  lemma PackNestedMapRow(s1: string, x1: Host, s2: string, x2: Host)
    requires !IsNilKind(x1) && !IsNilKind(x2)
    ensures Unpack(Pack(HSlice([HStrMap(map[s1 := x1]), HStrMap(map[s2 := x2])])))
            == Seq([Map(map[s1 := Unpack(Pack(x1))]), Map(map[s2 := Unpack(Pack(x2))])])
  {
    PackListRow(HStrMap(map[s1 := x1]), HStrMap(map[s2 := x2]));
    PackSingleStringKeyRow(HStrMap(map[s1 := x1]), s1, x1);
    PackSingleStringKeyRow(HStrMap(map[s2 := x2]), s2, x2);
  }
}
