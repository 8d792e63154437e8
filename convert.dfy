/**
 * Marshalling between Go host values and Lua values.
 *
 * `Pack` turns a host value into a Lua value (PackLValue) and `Unpack` turns
 * a Lua value back into a host-observable value (UnpackLValue).  A Lua table
 * is a finite map from keys to values; `Unpack` classifies it as a sequence
 * exactly when its keys are the integers 1..N and nothing else, and as a
 * string-keyed mapping otherwise.
 */
module Convert {

  // ---------------------------------------------------------------------
  // Decimal rendering of integer keys
  // ---------------------------------------------------------------------

  function DigitChar(d: nat): (c: char)
    requires d < 10
    ensures '0' <= c <= '9'
    ensures c as int - '0' as int == d
  {
    ('0' as int + d) as char
  }

  predicate IsDigits(s: string) {
    forall j :: 0 <= j < |s| ==> '0' <= s[j] <= '9'
  }

  /** The number a string of decimal digits denotes, most significant first. */
  ghost function DigitsValue(s: string): int
    decreases |s|
  {
    if s == [] then 0 else DigitsValue(s[..|s| - 1]) * 10 + (s[|s| - 1] as int - '0' as int)
  }

  /** The decimal digits of `n`, most significant first, without leading zeros. */
  function NatToString(n: nat): (r: string)
    ensures |r| >= 1 && IsDigits(r)
    ensures n < 10 <==> |r| == 1
    decreases n
  {
    if n < 10 then [DigitChar(n)] else NatToString(n / 10) + [DigitChar(n % 10)]
  }

  /** The digits NatToString gives denote `n`, with no leading zero. */
  lemma {:induction false} NatToStringValue(n: nat)
    ensures DigitsValue(NatToString(n)) == n
    ensures n > 0 ==> NatToString(n)[0] != '0'
    ensures |NatToString(n)| > 1 ==> NatToString(n)[0] != '0'
    decreases n
  {
    var r := NatToString(n);
    if n < 10 {
      assert r == [DigitChar(n)];
    } else {
      var prefix := NatToString(n / 10);
      NatToStringValue(n / 10);
      assert r == prefix + [DigitChar(n % 10)];
      assert r[..|r| - 1] == prefix;
      assert r[0] == prefix[0];
    }
  }

  /** The canonical rendering of an integer: decimal, without a decimal point. */
  function IntToString(i: int): (r: string)
    ensures |r| >= 1 && '.' !in r
    ensures i >= 0 ==> IsDigits(r)
    ensures i < 0 ==> r[0] == '-' && IsDigits(r[1..])
  {
    if i < 0 then "-" + NatToString(-i) else NatToString(i)
  }

  /** A non-negative integer renders as its decimal expansion, without
      leading zeros. */
  lemma IntToStringNonNegative(i: int)
    requires i >= 0
    ensures DigitsValue(IntToString(i)) == i
    ensures |IntToString(i)| > 1 ==> IntToString(i)[0] != '0'
  {
    NatToStringValue(i);
  }

  /** A negative integer renders as '-' and the decimal expansion of its
      magnitude, without leading zeros. */
  lemma IntToStringNegative(i: int)
    requires i < 0
    ensures |IntToString(i)| >= 2 && IntToString(i)[0] == '-'
    ensures DigitsValue(IntToString(i)[1..]) == -i
    ensures IntToString(i)[1] != '0'
  {
    NatToStringValue(-i);
    assert IntToString(i)[1..] == NatToString(-i);
  }

  lemma {:induction false} NatToStringInjective(a: nat, b: nat)
    ensures NatToString(a) == NatToString(b) ==> a == b
    decreases a
  {
    var sa, sb := NatToString(a), NatToString(b);
    if sa == sb {
      if a < 10 || b < 10 {
        assert a < 10 && b < 10;
        assert sa[0] == DigitChar(a) && sb[0] == DigitChar(b);
      } else {
        assert sa[..|sa| - 1] == NatToString(a / 10);
        assert sb[..|sb| - 1] == NatToString(b / 10);
        NatToStringInjective(a / 10, b / 10);
        assert sa[|sa| - 1] == DigitChar(a % 10);
        assert sb[|sb| - 1] == DigitChar(b % 10);
      }
    }
  }

  /** Distinct integers have distinct renderings, so integer keys never collide. */
  lemma IntToStringInjective()
    ensures forall a, b :: IntToString(a) == IntToString(b) ==> a == b
  {
    forall a, b | IntToString(a) == IntToString(b)
      ensures a == b
    {
      if a < 0 && b < 0 {
        assert IntToString(a)[1..] == NatToString(-a);
        assert IntToString(b)[1..] == NatToString(-b);
        NatToStringInjective(-a, -b);
      } else if a >= 0 && b >= 0 {
        NatToStringInjective(a, b);
      }
    }
  }

  // ---------------------------------------------------------------------
  // The Lua side: keys, values and tables
  // ---------------------------------------------------------------------

  /** A table key: an integral number, a string, or a non-integral number
      known by its decimal rendering (such as "1.1"). */
  datatype LKey = IntKey(i: int) | StrKey(s: string) | FracKey(rendering: string)

  /** A Lua value.  Functions, userdata and threads are `LOpaque`. */
  datatype LValue =
    | LNil
    | LBool(b: bool)
    | LNumber(n: real)
    | LString(s: string)
    | LTable(entries: map<LKey, LValue>)
    | LOpaque(handle: nat)

  /** The host-observable value that `Unpack` produces. */
  datatype Dyn =
    | Nil
    | Bool(b: bool)
    | Num(x: real)
    | Str(s: string)
    | Seq(elems: seq<Dyn>)
    | Map(fields: map<string, Dyn>)
    | Opaque(handle: nat)

  /** The string a key becomes in a mapping: an integer's canonical decimal
      rendering (see IntToStringNonNegative
      and IntToStringNegative), a string itself, a fractional number
      its rendering. */
  function Render(k: LKey): (r: string)
    ensures k.IntKey? ==> |r| >= 1 && '.' !in r
    ensures k.StrKey? ==> r == k.s
    ensures k.FracKey? ==> r == k.rendering
  {
    match k
    case IntKey(i) => IntToString(i)
    case StrKey(s) => s
    case FracKey(r) => r
  }

  function RenderedKeys(keys: set<LKey>): set<string> {
    set k | k in keys :: Render(k)
  }

  // ---------------------------------------------------------------------
  // Sequence versus mapping
  // ---------------------------------------------------------------------

  /** The keys of a sequence of length n. */
  function KeyRange(n: nat): set<LKey> {
    set i | 1 <= i <= n :: IntKey(i)
  }

  /** The reference rule: the keys are exactly 1..n for some n. */
  ghost predicate HasSequenceKeys(keys: set<LKey>) {
    exists n: nat :: keys == KeyRange(n)
  }

  datatype Shape = Sequence(length: nat) | Mapping

  /** Scans the integer keys i, i+1, ... and returns the last one of the
      unbroken run (i - 1 when key i is missing). */
  function ScanFrom(keys: set<LKey>, i: nat): (n: nat)
    requires 1 <= i <= |keys| + 1
    ensures i - 1 <= n <= |keys|
    ensures forall j :: i <= j <= n ==> IntKey(j) in keys
    ensures n < |keys| ==> IntKey(n + 1) !in keys
    decreases |keys| + 1 - i
  {
    if i <= |keys| && IntKey(i) in keys then ScanFrom(keys, i + 1) else i - 1
  }

  /** A table is a sequence when the run of keys from 1 accounts for all of its keys. */
  function Classify(keys: set<LKey>): (s: Shape)
    ensures s.Sequence? ==> s.length == |keys| && forall j :: 1 <= j <= |keys| ==> IntKey(j) in keys
  {
    var n := ScanFrom(keys, 1);
    if n == |keys| then Sequence(n) else Mapping
  }

  lemma {:induction false} KeyRangeSize(n: nat)
    ensures |KeyRange(n)| == n
  {
    if n > 0 {
      KeyRangeSize(n - 1);
      assert KeyRange(n) == KeyRange(n - 1) + {IntKey(n)};
    } else {
      assert KeyRange(0) == {};
    }
  }

  /** The scan agrees with the reference rule, in both directions. */
  lemma ClassifyCorrect(keys: set<LKey>)
    ensures Classify(keys).Sequence? <==> HasSequenceKeys(keys)
    ensures Classify(keys).Sequence? ==> keys == KeyRange(|keys|)
  {
    KeyRangeSize(|keys|);
    if Classify(keys).Sequence? {
      assert KeyRange(|keys|) <= keys;
      assert |keys - KeyRange(|keys|)| == 0;
      assert keys == KeyRange(|keys|);
    }
    if HasSequenceKeys(keys) {
      var n: nat :| keys == KeyRange(n);
      KeyRangeSize(n);
    }
  }

  // ---------------------------------------------------------------------
  // Unpack
  // ---------------------------------------------------------------------

  /** Whether key k supplies the value for its rendering in a mapping: a
      string key always does, a fractional key unless a string key renders
      the same, an integer key unless a string or fractional key does. */
  predicate Supplies<V>(d: map<LKey, V>, k: LKey) {
    k in d &&
    match k
    case StrKey(_) => true
    case FracKey(r) => StrKey(r) !in d
    case IntKey(i) => StrKey(IntToString(i)) !in d && FracKey(IntToString(i)) !in d
  }

  /** The integers of the integer keys. */
  function IntsOf(keys: set<LKey>): set<int> {
    set k | k in keys && k.IntKey? :: k.i
  }

  /** The key that supplies rendering s: the string key s if there is one,
      else the fractional key rendered s, else the integer key rendered s. */
  function Supplier<V>(d: map<LKey, V>, s: string): (k: LKey)
    requires s in RenderedKeys(d.Keys)
    ensures Supplies(d, k) && Render(k) == s
  {
    if StrKey(s) in d then StrKey(s)
    else if FracKey(s) in d then FracKey(s)
    else
      var k0 :| k0 in d && Render(k0) == s;
      assert k0.IntKey? && s in Renderings(IntsOf(d.Keys)) by {
        assert k0.i in IntsOf(d.Keys);
      }
      IntKey(IntOf(IntsOf(d.Keys), s))
  }

  /** A key that supplies its rendering is the supplier of that rendering. */
  lemma SupplierOf<V>(d: map<LKey, V>, k: LKey)
    requires Supplies(d, k)
    ensures Render(k) in RenderedKeys(d.Keys) && Supplier(d, Render(k)) == k
  {
    if k.IntKey? {
      assert k.i in IntsOf(d.Keys);
      IntToStringInjective();
    }
  }

  /** The mapping of a table whose values are already unpacked: every key is
      replaced by its rendering; a string key takes precedence over a number
      key with the same rendering. */
  function MappingOf(d: map<LKey, Dyn>): (f: map<string, Dyn>)
    ensures f.Keys == RenderedKeys(d.Keys)
    ensures forall k :: Supplies(d, k) ==> f[Render(k)] == d[k]
  {
    var f := map s | s in RenderedKeys(d.Keys) :: d[Supplier(d, s)];
    assert forall k :: Supplies(d, k) ==> f[Render(k)] == d[k] by {
      forall k | Supplies(d, k) ensures f[Render(k)] == d[k] {
        SupplierOf(d, k);
      }
    }
    f
  }

  /** UnpackLValue. */
  function Unpack(v: LValue): (r: Dyn)
    ensures v.LTable? <==> r.Seq? || r.Map?
    ensures r.Seq? ==> Classify(v.entries.Keys) == Sequence(|r.elems|)
    ensures r.Map? ==> Classify(v.entries.Keys) == Mapping
  {
    match v
    case LNil => Nil
    case LBool(b) => Bool(b)
    case LNumber(n) => Num(n)
    case LString(s) => Str(s)
    case LOpaque(h) => Opaque(h)
    case LTable(m) =>
      var d := map k | k in m :: Unpack(m[k]);
      match Classify(m.Keys)
      case Sequence(n) => Seq(seq(n, j requires 0 <= j < n => d[IntKey(j + 1)]))
      case Mapping => Map(MappingOf(d))
  }

  /** A table whose keys are exactly 1..n unpacks to a sequence of length n
      holding its values in key order, each unpacked in turn. */
  lemma UnpackSequence(m: map<LKey, LValue>, n: nat)
    requires m.Keys == KeyRange(n)
    ensures Unpack(LTable(m)).Seq? && |Unpack(LTable(m)).elems| == n
    ensures forall j :: 0 <= j < n ==>
              IntKey(j + 1) in m && Unpack(LTable(m)).elems[j] == Unpack(m[IntKey(j + 1)])
  {
    KeyRangeSize(n);
    ClassifyCorrect(m.Keys);
    forall j | 1 <= j <= n ensures IntKey(j) in m {
      assert IntKey(j) in KeyRange(n);
    }
  }

  /** Every other table unpacks to a mapping whose keys are the renderings of
      its keys, and whose value under each rendering is the unpacked value of
      the key that supplies it. */
  lemma UnpackMapping(m: map<LKey, LValue>)
    requires !HasSequenceKeys(m.Keys)
    ensures Unpack(LTable(m)).Map?
    ensures Unpack(LTable(m)).fields.Keys == RenderedKeys(m.Keys)
    ensures forall k :: Supplies(m, k) ==> Unpack(LTable(m)).fields[Render(k)] == Unpack(m[k])
  {
    ClassifyCorrect(m.Keys);
    var d := map k | k in m :: Unpack(m[k]);
    assert d.Keys == m.Keys;
    forall k | Supplies(m, k) ensures Supplies(d, k) { }
  }

  /** Key 1 together with any string key gives a mapping, in which the integer
      key appears as "1". */
  lemma UnpackKeyOneWithStringKey(m: map<LKey, LValue>, s: string)
    requires IntKey(1) in m && StrKey(s) in m
    ensures Unpack(LTable(m)).Map?
    ensures "1" in Unpack(LTable(m)).fields && s in Unpack(LTable(m)).fields
  {
    UnpackMapping(m);
    assert Render(IntKey(1)) == "1";
    assert Render(StrKey(s)) == s;
  }

  /** A non-empty table without key 1 is never a sequence. */
  lemma UnpackWithoutKeyOne(m: map<LKey, LValue>)
    requires |m| > 0 && IntKey(1) !in m
    ensures Unpack(LTable(m)).Map?
    ensures Unpack(LTable(m)).fields.Keys == RenderedKeys(m.Keys)
  {
    UnpackMapping(m);
  }

  /** A table holding a non-integral number key is always a mapping, keyed by
      that number's rendering. */
  lemma UnpackFractionalKey(m: map<LKey, LValue>, r: string)
    requires FracKey(r) in m
    ensures Unpack(LTable(m)).Map? && r in Unpack(LTable(m)).fields
  {
    UnpackMapping(m);
    assert Render(FracKey(r)) == r;
  }

  /** A non-empty table without key 1 does not have sequence keys. */
  lemma NoKeyOneNotSequence(keys: set<LKey>)
    requires |keys| > 0 && IntKey(1) !in keys
    ensures !HasSequenceKeys(keys)
  {
  }

  // ---------------------------------------------------------------------
  // Pack
  // ---------------------------------------------------------------------

  /** A Go value handed to PackLValue.  Every integer width is an `HInt`,
      every float width an `HFloat`.  A nil slice or map is distinct from an
      empty one.  Each keyed container has a single key type, as a Go map
      does; a float-keyed map is known by the renderings of its keys. */
  datatype Host =
    | HNil
    | HBool(b: bool)
    | HInt(i: int)
    | HFloat(x: real)
    | HString(s: string)
    | HNilSlice
    | HSlice(elems: seq<Host>)
    | HNilMap
    | HStrMap(strs: map<string, Host>)
    | HIntMap(ints: map<int, Host>)
    | HFloatMap(floats: map<string, Host>)

  predicate IsKeyed(h: Host) {
    h.HStrMap? || h.HIntMap? || h.HFloatMap?
  }

  function StrKeys(ss: set<string>): set<LKey> {
    set s | s in ss :: StrKey(s)
  }

  function Renderings(ints: set<int>): set<string> {
    set i | i in ints :: IntToString(i)
  }

  /** The integer of `ints` whose rendering is `s`. */
  function IntOf(ints: set<int>, s: string): (i: int)
    requires s in Renderings(ints)
    ensures i in ints && IntToString(i) == s
  {
    IntToStringInjective();
    var i :| i in ints && IntToString(i) == s;
    i
  }

  /** The kinds PackLValue turns into nil. */
  predicate IsNilKind(h: Host) {
    h.HNil? || h.HNilSlice? || h.HNilMap?
  }

  /** The keys of a Go map whose values do not pack to nil.  Storing nil in a
      Lua table removes the key, so only these keys reach the table. */
  function LiveKeys<K>(m: map<K, Host>): (ks: set<K>)
    ensures ks <= m.Keys
  {
    set k | k in m && !IsNilKind(m[k])
  }

  /** A value a Lua table can hold: no table, at any depth, stores nil. */
  predicate IsLuaValue(v: LValue) {
    v.LTable? ==> forall k :: k in v.entries ==> !v.entries[k].LNil? && IsLuaValue(v.entries[k])
  }

  /** PackLValue: nil and nil containers become nil, numbers become Lua
      numbers, a slice becomes a table keyed by the positions 1..N, and a
      keyed container becomes a table whose keys are the renderings of its
      keys, as strings.  An element or value that packs to nil leaves no
      entry, as storing nil in a Lua table does. */
  function Pack(h: Host): (v: LValue)
    ensures IsNilKind(h) <==> v.LNil?
    ensures h.HSlice? ==> v.LTable? && v.entries.Keys <= KeyRange(|h.elems|)
    ensures h.HSlice? ==> forall j :: 0 <= j < |h.elems| ==> (IntKey(j + 1) in v.entries <==> !IsNilKind(h.elems[j]))
    ensures IsKeyed(h) ==> v.LTable? && forall k :: k in v.entries ==> k.StrKey?
  {
    match h
    case HNil => LNil
    case HNilSlice => LNil
    case HNilMap => LNil
    case HBool(b) => LBool(b)
    case HInt(i) => LNumber(i as real)
    case HFloat(x) => LNumber(x)
    case HString(s) => LString(s)
    case HSlice(xs) => LTable(map k | k in KeyRange(|xs|) && !IsNilKind(xs[k.i - 1]) :: Pack(xs[k.i - 1]))
    case HStrMap(m) => LTable(map k | k in StrKeys(LiveKeys(m)) :: Pack(m[k.s]))
    case HFloatMap(m) => LTable(map k | k in StrKeys(LiveKeys(m)) :: Pack(m[k.s]))
    case HIntMap(m) => LTable(map k | k in StrKeys(Renderings(LiveKeys(m))) :: Pack(m[IntOf(LiveKeys(m), k.s)]))
  }

  /** Packing always gives a value a Lua table can hold: no nil is stored
      at any depth. */
  lemma {:induction false} PackIsLuaValue(h: Host)
    ensures IsLuaValue(Pack(h))
  {
    match h
    case HSlice(xs) =>
      forall k | k in Pack(h).entries ensures IsLuaValue(Pack(h).entries[k]) {
        PackIsLuaValue(xs[k.i - 1]);
      }
    case HStrMap(m) =>
      forall k | k in Pack(h).entries ensures IsLuaValue(Pack(h).entries[k]) {
        PackIsLuaValue(m[k.s]);
      }
    case HFloatMap(m) =>
      forall k | k in Pack(h).entries ensures IsLuaValue(Pack(h).entries[k]) {
        PackIsLuaValue(m[k.s]);
      }
    case HIntMap(m) =>
      forall k | k in Pack(h).entries ensures IsLuaValue(Pack(h).entries[k]) {
        PackIsLuaValue(m[IntOf(LiveKeys(m), k.s)]);
      }
    case _ =>
  }

  /** No element or value of a container, at any depth, is of a kind that
      packs to nil; on these values nothing is lost in packing. */
  predicate NilFree(h: Host) {
    match h
    case HSlice(xs) => forall j :: 0 <= j < |xs| ==> !IsNilKind(xs[j]) && NilFree(xs[j])
    case HStrMap(m) => forall s :: s in m ==> !IsNilKind(m[s]) && NilFree(m[s])
    case HFloatMap(m) => forall s :: s in m ==> !IsNilKind(m[s]) && NilFree(m[s])
    case HIntMap(m) => forall i :: i in m ==> !IsNilKind(m[i]) && NilFree(m[i])
    case _ => true
  }

  /** The reference for what UnpackLValue(PackLValue(h)) must give on values
      whose containers hold no nil: numbers as floats, slices as sequences in
      order, keyed containers as mappings keyed by the renderings of their
      keys, nil containers as nil.  An empty container becomes an empty table,
      which is a sequence of length 0. */
  function Canon(h: Host): (c: Dyn)
    ensures IsNilKind(h) <==> c.Nil?
    ensures h.HSlice? ==> c.Seq? && |c.elems| == |h.elems|
    ensures IsKeyed(h) ==> c.Map? || c == Seq([])
    ensures (h.HStrMap? || h.HFloatMap?) && c.Map? ==> c.fields.Keys == (if h.HStrMap? then h.strs.Keys else h.floats.Keys)
    ensures h.HIntMap? && c.Map? ==> c.fields.Keys == Renderings(h.ints.Keys)
  {
    match h
    case HNil => Nil
    case HNilSlice => Nil
    case HNilMap => Nil
    case HBool(b) => Bool(b)
    case HInt(i) => Num(i as real)
    case HFloat(x) => Num(x)
    case HString(s) => Str(s)
    case HSlice(xs) => Seq(seq(|xs|, j requires 0 <= j < |xs| => Canon(xs[j])))
    case HStrMap(m) => if |m| == 0 then Seq([]) else Map(map s | s in m :: Canon(m[s]))
    case HFloatMap(m) => if |m| == 0 then Seq([]) else Map(map s | s in m :: Canon(m[s]))
    case HIntMap(m) =>
      if |m| == 0 then Seq([]) else Map(map s | s in Renderings(m.Keys) :: Canon(m[IntOf(m.Keys, s)]))
  }

  /** Unpacking a packed string-keyed table gives the mapping of the unpacked values. */
  lemma UnpackStringTable(t: map<LKey, LValue>)
    requires |t| > 0 && forall k :: k in t ==> k.StrKey?
    ensures Unpack(LTable(t)).Map?
    ensures forall s :: StrKey(s) in t <==> s in Unpack(LTable(t)).fields
    ensures forall s :: StrKey(s) in t ==> Unpack(LTable(t)).fields[s] == Unpack(t[StrKey(s)])
  {
    NoKeyOneNotSequence(t.Keys);
    UnpackMapping(t);
    forall s | s in Unpack(LTable(t)).fields ensures StrKey(s) in t {
      var k :| k in t && Render(k) == s;
    }
    forall s | StrKey(s) in t ensures s in Unpack(LTable(t)).fields {
      assert Render(StrKey(s)) == s;
    }
    assert forall s :: StrKey(s) in t ==> Supplies(t, StrKey(s));
  }

  lemma RenderedOne(a: LKey)
    ensures RenderedKeys({a}) == {Render(a)}
  {
  }

  /** A table whose only key is not 1 unpacks to a mapping of one entry. */
  lemma UnpackOneKey(t: map<LKey, LValue>, k: LKey)
    requires t.Keys == {k}
    requires !k.IntKey? || k.i != 1
    ensures Unpack(LTable(t)) == Map(map[Render(k) := Unpack(t[k])])
  {
    NoKeyOneNotSequence(t.Keys);
    UnpackMapping(t);
    RenderedOne(k);
    assert Supplies(t, k);
    MapsEqual(Unpack(LTable(t)).fields, map[Render(k) := Unpack(t[k])]);
  }

  /** Round trip: unpacking a packed value whose containers hold no nil gives
      its reference form.  Scalars come back directly (integers as floats),
      nil containers as nil, and containers recursively. */
  lemma {:induction false} RoundTrip(h: Host)
    requires NilFree(h)
    ensures Unpack(Pack(h)) == Canon(h)
    decreases h, 2
  {
    match h
    case HSlice(xs) => RoundTripSlice(xs);
    case HStrMap(m) => RoundTripStringKeys(h, m);
    case HFloatMap(m) => RoundTripStringKeys(h, m);
    case HIntMap(m) => RoundTripIntKeys(m);
    case _ =>
  }

  lemma PackSliceAt(xs: seq<Host>, j: nat)
    requires j < |xs| && !IsNilKind(xs[j])
    ensures Pack(HSlice(xs)).LTable? && IntKey(j + 1) in Pack(HSlice(xs)).entries
    ensures Pack(HSlice(xs)).entries[IntKey(j + 1)] == Pack(xs[j])
  {
  }

  /** A slice without nil-kind elements packs to a table keyed exactly 1..N. */
  lemma PackSliceKeys(xs: seq<Host>)
    requires forall j :: 0 <= j < |xs| ==> !IsNilKind(xs[j])
    ensures Pack(HSlice(xs)).LTable? && Pack(HSlice(xs)).entries.Keys == KeyRange(|xs|)
  {
    var t := Pack(HSlice(xs)).entries;
    forall k | k in KeyRange(|xs|) ensures k in t {
      assert IntKey(k.i - 1 + 1) in t;
    }
  }

  lemma PackStringKeysAt(h: Host, m: map<string, Host>, s: string)
    requires h == HStrMap(m) || h == HFloatMap(m)
    requires s in m && !IsNilKind(m[s])
    ensures Pack(h).LTable? && StrKey(s) in Pack(h).entries
    ensures Pack(h).entries[StrKey(s)] == Pack(m[s])
  {
    assert s in LiveKeys(m);
  }

  /** A packed string- or float-keyed map has a key exactly for each entry
      whose value does not pack to nil. */
  lemma PackStringKeysDomain(h: Host, m: map<string, Host>)
    requires h == HStrMap(m) || h == HFloatMap(m)
    ensures Pack(h).LTable?
    ensures forall s :: StrKey(s) in Pack(h).entries <==> s in m && !IsNilKind(m[s])
  {
  }

  /** A packed integer-keyed map has a key exactly for the rendering of each
      integer whose value does not pack to nil. */
  lemma PackIntKeysDomain(m: map<int, Host>)
    ensures Pack(HIntMap(m)).LTable?
    ensures forall s :: StrKey(s) in Pack(HIntMap(m)).entries <==>
                        exists i :: i in m && !IsNilKind(m[i]) && IntToString(i) == s
  {
    forall s | StrKey(s) in Pack(HIntMap(m)).entries
      ensures exists i :: i in m && !IsNilKind(m[i]) && IntToString(i) == s
    {
      var i := IntOf(LiveKeys(m), s);
    }
    forall s | exists i :: i in m && !IsNilKind(m[i]) && IntToString(i) == s
      ensures StrKey(s) in Pack(HIntMap(m)).entries
    {
      var i :| i in m && !IsNilKind(m[i]) && IntToString(i) == s;
      assert i in LiveKeys(m);
      assert s in Renderings(LiveKeys(m));
    }
  }

  lemma PackIntKeysAt(m: map<int, Host>, i: int)
    requires i in m && !IsNilKind(m[i])
    ensures Pack(HIntMap(m)).LTable? && StrKey(IntToString(i)) in Pack(HIntMap(m)).entries
    ensures Pack(HIntMap(m)).entries[StrKey(IntToString(i))] == Pack(m[i])
  {
    IntToStringInjective();
    assert i in LiveKeys(m);
    assert IntToString(i) in Renderings(LiveKeys(m));
    assert IntOf(LiveKeys(m), IntToString(i)) == i;
  }

  /** A string- or float-keyed map with one value that survives packing packs
      to the table of that one string key. */
  lemma PackOneStrKey(h: Host, m: map<string, Host>, s: string)
    requires h == HStrMap(m) || h == HFloatMap(m)
    requires LiveKeys(m) == {s}
    ensures Pack(h) == LTable(map[StrKey(s) := Pack(m[s])])
  {
    assert StrKeys(LiveKeys(m)) == {StrKey(s)};
    MapsEqual(Pack(h).entries, map[StrKey(s) := Pack(m[s])]);
  }

  /** An integer-keyed map with one value that survives packing packs to the
      table of that integer's rendering. */
  lemma PackOneIntKey(m: map<int, Host>, i: int)
    requires LiveKeys(m) == {i}
    ensures Pack(HIntMap(m)) == LTable(map[StrKey(IntToString(i)) := Pack(m[i])])
  {
    assert Renderings(LiveKeys(m)) == {IntToString(i)};
    assert StrKeys(Renderings(LiveKeys(m))) == {StrKey(IntToString(i))};
    PackIntKeysAt(m, i);
    MapsEqual(Pack(HIntMap(m)).entries, map[StrKey(IntToString(i)) := Pack(m[i])]);
  }

  lemma {:induction false} RoundTripSlice(xs: seq<Host>)
    requires NilFree(HSlice(xs))
    ensures Unpack(Pack(HSlice(xs))) == Canon(HSlice(xs))
    decreases HSlice(xs), 1
  {
    var t := Pack(HSlice(xs)).entries;
    PackSliceKeys(xs);
    UnpackSequence(t, |xs|);
    var u, c := Unpack(LTable(t)), Canon(HSlice(xs));
    forall j | 0 <= j < |xs| ensures u.elems[j] == c.elems[j] {
      PackSliceAt(xs, j);
      RoundTrip(xs[j]);
    }
    assert u.elems == c.elems;
  }

  lemma SomeKey<K, V>(m: map<K, V>) returns (k: K)
    requires |m| > 0
    ensures k in m
  {
    k :| k in m;
  }

  lemma SomeMember<T>(s: set<T>) returns (x: T)
    requires s != {}
    ensures x in s
  {
    x :| x in s;
  }

  lemma MapsEqual<K, V>(a: map<K, V>, b: map<K, V>)
    requires a.Keys == b.Keys
    requires forall k :: k in a ==> a[k] == b[k]
    ensures a == b
  {
  }

  lemma CanonStringKeys(h: Host, m: map<string, Host>)
    requires h == HStrMap(m) || h == HFloatMap(m)
    requires |m| > 0
    ensures Canon(h).Map? && Canon(h).fields.Keys == m.Keys
    ensures forall s :: s in m ==> Canon(h).fields[s] == Canon(m[s])
  {
  }

  lemma CanonIntKeys(m: map<int, Host>)
    requires |m| > 0
    ensures Canon(HIntMap(m)).Map? && Canon(HIntMap(m)).fields.Keys == Renderings(m.Keys)
    ensures forall s :: s in Renderings(m.Keys) ==> Canon(HIntMap(m)).fields[s] == Canon(m[IntOf(m.Keys, s)])
  {
  }

  /** A keyed container with no value that survives packing packs to the
      empty table, which unpacks to the empty sequence. */
  lemma UnpackPackedEmpty(h: Host)
    requires h.HStrMap? ==> LiveKeys(h.strs) == {}
    requires h.HFloatMap? ==> LiveKeys(h.floats) == {}
    requires h.HIntMap? ==> LiveKeys(h.ints) == {}
    requires IsKeyed(h)
    ensures Unpack(Pack(h)) == Seq([])
  {
    PackEmpty(h);
    UnpackEmptyTable();
  }

  /** A keyed container with no live value packs to the empty table. */
  lemma PackEmpty(h: Host)
    requires h.HStrMap? ==> LiveKeys(h.strs) == {}
    requires h.HFloatMap? ==> LiveKeys(h.floats) == {}
    requires h.HIntMap? ==> LiveKeys(h.ints) == {}
    requires IsKeyed(h)
    ensures Pack(h) == LTable(map[])
  {
  }

  /** The empty table is the empty sequence. */
  lemma UnpackEmptyTable()
    ensures Unpack(LTable(map[])) == Seq([])
  {
  }

  /** A packed string- or float-keyed map is a mapping with the keys whose
      values survive packing, each holding its value packed and unpacked, even
      for the key "1", or the empty sequence when no value does. */
  lemma UnpackPackedStringKeys(h: Host, m: map<string, Host>)
    requires h == HStrMap(m) || h == HFloatMap(m)
    ensures LiveKeys(m) != {} ==> Unpack(Pack(h)).Map? && Unpack(Pack(h)).fields.Keys == LiveKeys(m)
    ensures forall s :: s in LiveKeys(m) ==> Unpack(Pack(h)).fields[s] == Unpack(Pack(m[s]))
    ensures LiveKeys(m) == {} ==> Unpack(Pack(h)) == Seq([])
  {
    PackLiveStrTable(h, m);
    UnpackLiveStrTable(Pack(h).entries, m);
    if LiveKeys(m) == {} {
      UnpackPackedEmpty(h);
    }
  }

  /** The table a string- or float-keyed map packs to: string keys, one for
      each live key, holding the live value packed. */
  lemma PackLiveStrTable(h: Host, m: map<string, Host>)
    requires h == HStrMap(m) || h == HFloatMap(m)
    ensures Pack(h).LTable? && forall k :: k in Pack(h).entries ==> k.StrKey?
    ensures forall s :: StrKey(s) in Pack(h).entries <==> s in LiveKeys(m)
    ensures forall s :: s in LiveKeys(m) ==> Pack(h).entries[StrKey(s)] == Pack(m[s])
  {
    PackStringKeysDomain(h, m);
    forall s | s in LiveKeys(m) ensures Pack(h).entries[StrKey(s)] == Pack(m[s]) {
      PackStringKeysAt(h, m, s);
    }
  }

  /** A table of string keys, one for each live key of m holding its value
      packed, unpacks to the mapping of the live keys to their values packed
      and unpacked. */
  lemma UnpackLiveStrTable(t: map<LKey, LValue>, m: map<string, Host>)
    requires forall k :: k in t ==> k.StrKey?
    requires forall s :: StrKey(s) in t <==> s in LiveKeys(m)
    requires forall s :: s in LiveKeys(m) ==> t[StrKey(s)] == Pack(m[s])
    ensures LiveKeys(m) != {} ==> Unpack(LTable(t)).Map? && Unpack(LTable(t)).fields.Keys == LiveKeys(m)
    ensures forall s :: s in LiveKeys(m) ==> Unpack(LTable(t)).fields[s] == Unpack(Pack(m[s]))
  {
    if LiveKeys(m) != {} {
      var s0 := SomeMember(LiveKeys(m));
      assert StrKey(s0) in t;
      UnpackStringTable(t);
      SameStrKeys(Unpack(LTable(t)).fields, t, LiveKeys(m));
    }
  }

  /** Two sets of strings that both name exactly the string keys of t agree. */
  lemma SameStrKeys<V, W>(f: map<string, V>, t: map<LKey, W>, live: set<string>)
    requires forall s :: StrKey(s) in t <==> s in f
    requires forall s :: StrKey(s) in t <==> s in live
    ensures f.Keys == live
  {
  }

  /** A packed integer-keyed map is a mapping keyed by the renderings of the
      keys whose values survive packing, even when those keys are 1..N, or the
      empty sequence when no value does; each rendering holds its value packed
      and unpacked. */
  lemma UnpackPackedIntKeys(m: map<int, Host>)
    ensures LiveKeys(m) != {} ==> Unpack(Pack(HIntMap(m))).Map?
    ensures LiveKeys(m) != {} ==> Unpack(Pack(HIntMap(m))).fields.Keys == Renderings(LiveKeys(m))
    ensures forall i :: i in LiveKeys(m) ==>
              Unpack(Pack(HIntMap(m))).fields[IntToString(i)] == Unpack(Pack(m[i]))
    ensures LiveKeys(m) == {} ==> Unpack(Pack(HIntMap(m))) == Seq([])
  {
    if LiveKeys(m) == {} {
      UnpackPackedEmpty(HIntMap(m));
    } else {
      var i0 := SomeMember(LiveKeys(m));
      PackIntKeysAt(m, i0);
      UnpackStringTable(Pack(HIntMap(m)).entries);
      var f := Unpack(Pack(HIntMap(m))).fields;
      forall s | s in f ensures s in Renderings(LiveKeys(m)) {
        PackIntKeysDomain(m);
        var i :| i in m && !IsNilKind(m[i]) && IntToString(i) == s;
        assert i in LiveKeys(m);
      }
      forall s | s in Renderings(LiveKeys(m)) ensures s in f {
        var i :| i in LiveKeys(m) && IntToString(i) == s;
        PackIntKeysAt(m, i);
      }
      forall i | i in LiveKeys(m) ensures f[IntToString(i)] == Unpack(Pack(m[i])) {
        PackIntKeysAt(m, i);
      }
    }
  }

  /** A string- or float-keyed map with one value that survives packing
      unpacks to the mapping of that one key, even when the key is "1". */
  lemma UnpackPackedOneKey(h: Host, m: map<string, Host>, s: string)
    requires h == HStrMap(m) || h == HFloatMap(m)
    requires LiveKeys(m) == {s}
    ensures Unpack(Pack(h)) == Map(map[s := Unpack(Pack(m[s]))])
  {
    PackOneStrKey(h, m, s);
    UnpackOneKey(map[StrKey(s) := Pack(m[s])], StrKey(s));
  }

  /** An integer-keyed map with one value that survives packing unpacks to
      the mapping of that key's rendering, even when the key is 1. */
  lemma UnpackPackedOneIntKey(m: map<int, Host>, i: int)
    requires LiveKeys(m) == {i}
    ensures Unpack(Pack(HIntMap(m))) == Map(map[IntToString(i) := Unpack(Pack(m[i]))])
  {
    PackOneIntKey(m, i);
    UnpackOneKey(map[StrKey(IntToString(i)) := Pack(m[i])], StrKey(IntToString(i)));
  }

  /** In a map whose values are all live, the live keys are all the keys. */
  lemma LiveKeysOfNilFree<K>(m: map<K, Host>)
    requires forall k :: k in m ==> !IsNilKind(m[k])
    ensures LiveKeys(m) == m.Keys
  {
  }

  lemma {:induction false} RoundTripStringKeys(h: Host, m: map<string, Host>)
    requires h == HStrMap(m) || h == HFloatMap(m)
    requires NilFree(h)
    ensures Unpack(Pack(h)) == Canon(h)
    decreases h, 1
  {
    LiveKeysOfNilFree(m);
    if |m| == 0 {
      UnpackPackedEmpty(h);
    } else {
      var s0 := SomeKey(m);
      assert s0 in LiveKeys(m);
      UnpackPackedStringKeys(h, m);
      CanonStringKeys(h, m);
      var u := Unpack(Pack(h)).fields;
      forall s | s in m ensures u[s] == Canon(h).fields[s] {
        RoundTripStringAt(h, m, s);
      }
      MapsEqual(u, Canon(h).fields);
    }
  }

  lemma {:induction false} RoundTripStringAt(h: Host, m: map<string, Host>, s: string)
    requires h == HStrMap(m) || h == HFloatMap(m)
    requires NilFree(h) && s in m
    ensures Unpack(Pack(h)).Map? && s in Unpack(Pack(h)).fields
    ensures Unpack(Pack(h)).fields[s] == Canon(m[s])
    decreases h, 0
  {
    assert !IsNilKind(m[s]) && NilFree(m[s]);
    PackStringKeysAt(h, m, s);
    UnpackStringTable(Pack(h).entries);
    RoundTrip(m[s]);
  }

  lemma {:induction false} RoundTripIntKeys(m: map<int, Host>)
    requires NilFree(HIntMap(m))
    ensures Unpack(Pack(HIntMap(m))) == Canon(HIntMap(m))
    decreases HIntMap(m), 1
  {
    forall i | i in m ensures !IsNilKind(m[i]) {
      assert !IsNilKind(m[i]) && NilFree(m[i]);
    }
    LiveKeysOfNilFree(m);
    if |m| == 0 {
      UnpackPackedEmpty(HIntMap(m));
    } else {
      var i0 := SomeKey(m);
      assert i0 in LiveKeys(m);
      UnpackPackedIntKeys(m);
      CanonIntKeys(m);
      var u := Unpack(Pack(HIntMap(m))).fields;
      forall s | s in Renderings(m.Keys) ensures u[s] == Canon(HIntMap(m)).fields[s] {
        RoundTripIntAt(m, IntOf(m.Keys, s));
      }
      MapsEqual(u, Canon(HIntMap(m)).fields);
    }
  }

  lemma {:induction false} RoundTripIntAt(m: map<int, Host>, i: int)
    requires NilFree(HIntMap(m)) && i in m
    ensures Unpack(Pack(HIntMap(m))).Map? && IntToString(i) in Unpack(Pack(HIntMap(m))).fields
    ensures Unpack(Pack(HIntMap(m))).fields[IntToString(i)] == Canon(m[i])
    decreases HIntMap(m), 0
  {
    assert !IsNilKind(m[i]) && NilFree(m[i]);
    PackIntKeysAt(m, i);
    UnpackStringTable(Pack(HIntMap(m)).entries);
    RoundTrip(m[i]);
  }

  /** A packed slice without nil-kind elements unpacks to the sequence of its
      unpacked elements, in order. */
  lemma PackedSliceIsSequence(xs: seq<Host>)
    requires forall j :: 0 <= j < |xs| ==> !IsNilKind(xs[j])
    ensures Unpack(Pack(HSlice(xs))).Seq? && |Unpack(Pack(HSlice(xs))).elems| == |xs|
    ensures forall j :: 0 <= j < |xs| ==> Unpack(Pack(HSlice(xs))).elems[j] == Unpack(Pack(xs[j]))
  {
    PackSliceKeys(xs);
    UnpackSequence(Pack(HSlice(xs)).entries, |xs|);
    forall j | 0 <= j < |xs| ensures Unpack(Pack(HSlice(xs))).elems[j] == Unpack(Pack(xs[j])) {
      PackSliceAt(xs, j);
    }
  }

  /** Keys with a gap below a present integer key are not 1..N. */
  lemma GapNotSequence(keys: set<LKey>, a: int, b: int)
    requires 1 <= a < b && IntKey(b) in keys && IntKey(a) !in keys
    ensures !HasSequenceKeys(keys)
  {
  }

  /** A table keyed by integers that is not a sequence is a mapping holding
      the rendering of an integer exactly when that integer is a key. */
  lemma IntKeyedMapping(t: map<LKey, LValue>, n: int)
    requires !HasSequenceKeys(t.Keys) && forall k :: k in t ==> k.IntKey?
    ensures Unpack(LTable(t)).Map?
    ensures IntToString(n) in Unpack(LTable(t)).fields <==> IntKey(n) in t
  {
    UnpackMapping(t);
    if IntToString(n) in Unpack(LTable(t)).fields {
      var k :| k in t && Render(k) == IntToString(n);
      IntToStringInjective();
    }
    if IntKey(n) in t {
      assert Render(IntKey(n)) == IntToString(n);
    }
  }

  /** A slice with a nil-kind element before a live one packs to a table with
      a gap in its keys, so it unpacks to a mapping keyed by the positions of
      the live elements, not to a sequence. */
  lemma UnpackPackedSliceWithGap(xs: seq<Host>, j: nat, l: nat)
    requires j < l < |xs| && IsNilKind(xs[j]) && !IsNilKind(xs[l])
    ensures Unpack(Pack(HSlice(xs))).Map?
    ensures forall i :: 0 <= i < |xs| ==>
              (IntToString(i + 1) in Unpack(Pack(HSlice(xs))).fields <==> !IsNilKind(xs[i]))
  {
    var t := Pack(HSlice(xs)).entries;
    assert IntKey(l + 1) in t && IntKey(j + 1) !in t;
    GapNotSequence(t.Keys, j + 1, l + 1);
    IntKeyedMapping(t, 1);
    forall i | 0 <= i < |xs| ensures IntToString(i + 1) in Unpack(LTable(t)).fields <==> !IsNilKind(xs[i]) {
      IntKeyedMapping(t, i + 1);
    }
  }
}
