/** Artifact storage: where a run's files go, the names they get, and the
    bookkeeping of saved files and pending browser downloads. */
module Storage {
  import opened Wrappers
  import opened Seqs

  // ---------------------------------------------------------------------
  // Names and paths
  // ---------------------------------------------------------------------

  predicate HasSuffix(s: string, suffix: string) {
    |suffix| <= |s| && s[|s| - |suffix|..] == suffix
  }

  /** The file name Save uses: `ext` is appended unless `name` already ends with it. */
  function SaveName(name: string, ext: string): (r: string)
    ensures HasSuffix(r, ext)
    ensures HasSuffix(name, ext) ==> r == name
    ensures !HasSuffix(name, ext) ==> r == name + ext
  {
    if HasSuffix(name, ext) then name else name + ext
  }

  /** Applying the naming rule a second time adds nothing. */
  lemma SaveNameIdempotent(name: string, ext: string)
    ensures SaveName(SaveName(name, ext), ext) == SaveName(name, ext)
  {
  }

  /** The rule never drops characters: the given name is a prefix of the result. */
  lemma SaveNameExtends(name: string, ext: string)
    ensures name <= SaveName(name, ext)
    ensures |SaveName(name, ext)| <= |name| + |ext|
  {
  }

  /** The index of the last `c` in `s`, or -1. */
  function LastIndex(s: string, c: char): (r: int)
    ensures -1 <= r < |s|
    ensures r >= 0 ==> s[r] == c
    ensures forall j :: r < j < |s| ==> s[j] != c
    decreases |s|
  {
    if s == [] then -1
    else if s[|s| - 1] == c then |s| - 1
    else LastIndex(s[..|s| - 1], c)
  }

  /** Path elements joined by "/", skipping empty ones (filepath.Join without Clean). */
  function Join(elems: seq<string>): (r: string)
    ensures (forall j :: 0 <= j < |elems| ==> elems[j] == "") ==> r == ""
    ensures |elems| > 0 && elems[0] != "" ==> r != ""
    decreases |elems|
  {
    if elems == [] then ""
    else
      var init := Join(elems[..|elems| - 1]);
      var last := elems[|elems| - 1];
      if last == "" then init
      else if init == "" then last
      else init + "/" + last
  }

  /** Joining two non-empty elements puts one separator between them. */
  lemma JoinTwo(a: string, b: string)
    requires a != "" && b != ""
    ensures Join([a, b]) == a + "/" + b
  {
    assert [a, b][..1] == [a];
    assert [a][..0] == [];
  }

  /** Joining a non-empty first element and a non-empty last one ends with a
      separator and the last element. */
  lemma JoinEndsWithLast(elems: seq<string>)
    requires |elems| >= 2 && elems[0] != "" && elems[|elems| - 1] != ""
    ensures HasSuffix(Join(elems), "/" + elems[|elems| - 1])
  {
    var init := elems[..|elems| - 1];
    assert init[0] == elems[0];
    var last := elems[|elems| - 1];
    assert Join(elems) == Join(init) + "/" + last;
    assert (Join(init) + "/" + last)[|Join(init)|..] == "/" + last;
  }

  /** filepath.Base: the last element, after trailing separators are dropped. */
  function Base(path: string): (r: string)
    ensures r != ""
    ensures r != "/" ==> '/' !in r
    ensures var t := TrimTrailingSlashes(path);
      t != "" ==> HasSuffix(t, r) && (|r| == |t| || t[|t| - |r| - 1] == '/')
  {
    if path == "" then "."
    else
      var trimmed := TrimTrailingSlashes(path);
      if trimmed == "" then "/"
      else trimmed[LastIndex(trimmed, '/') + 1..]
  }

  function TrimTrailingSlashes(path: string): (r: string)
    ensures r <= path
    ensures r == "" || r[|r| - 1] != '/'
    ensures forall j :: |r| <= j < |path| ==> path[j] == '/'
    decreases |path|
  {
    if path != "" && path[|path| - 1] == '/' then TrimTrailingSlashes(path[..|path| - 1]) else path
  }

  /** filepath.Dir without Clean: everything before the last separator,
      "/" when that is the only one at the front, "." when there is none. */
  function DirOf(path: string): (r: string)
    ensures r != ""
  {
    var i := LastIndex(path, '/');
    if i < 0 then "."
    else if i == 0 then "/"
    else path[..i]
  }

  /** Whether element `..` starts at position `i` of `p`. */
  predicate ParentElementAt(p: string, i: int) {
    0 <= i && i + 1 < |p| && p[i] == '.' && p[i + 1] == '.'
    && (i == 0 || p[i - 1] == '/') && (i + 2 == |p| || p[i + 2] == '/')
  }

  /** Whether element `.` starts at position `i` of `p`. */
  predicate DotElementAt(p: string, i: int) {
    0 <= i < |p| && p[i] == '.' && (i == 0 || p[i - 1] == '/') && (i + 1 == |p| || p[i + 1] == '/')
  }

  /** A path with no `..` element. */
  predicate NoParentElement(p: string) {
    forall i :: 0 <= i < |p| ==> !ParentElementAt(p, i)
  }

  /** A path that filepath.Clean leaves as it is: no empty, `.` or `..`
      element and no trailing separator. */
  predicate IsClean(p: string) {
    p != "" && (p == "/" || p[|p| - 1] != '/')
    && (forall i :: 0 <= i < |p| ==> !DotElementAt(p, i) && !ParentElementAt(p, i))
    && (forall i :: 0 <= i < |p| - 1 ==> !(p[i] == '/' && p[i + 1] == '/'))
  }

  /** A clean path with an inner separator is its directory, a separator and
      its base name. */
  lemma DirAndBase(path: string)
    requires IsClean(path)
    requires 0 < LastIndex(path, '/')
    ensures DirOf(path) + "/" + Base(path) == path
  {
    var i := LastIndex(path, '/');
    assert i < |path| - 1;
    assert path[|path| - 1] != '/';
    assert TrimTrailingSlashes(path) == path;
    assert Base(path) == path[i + 1..];
    assert DirOf(path) == path[..i];
    assert [path[i]] == "/";
    Around(path, i);
  }

  /** filepath.Ext: the suffix from the last "." of the last element, or "". */
  function Ext(path: string): (r: string)
    ensures HasSuffix(path, r)
    ensures r == "" || (r[0] == '.' && '/' !in r)
    ensures r != "" ==> '.' !in r[1..]
    ensures r == "" ==> forall j :: LastIndex(path, '/') < j < |path| ==> path[j] != '.'
    decreases |path|
  {
    if path == [] || path[|path| - 1] == '/' then ""
    else if path[|path| - 1] == '.' then [path[|path| - 1]]
    else
      var e := Ext(path[..|path| - 1]);
      if e == "" then "" else e + [path[|path| - 1]]
  }

  /** The script name without its extension. */
  function Stem(name: string): (r: string)
    ensures r + Ext(name) == name
  {
    name[..|name| - |Ext(name)|]
  }

  /** NewStorage's directory: basedir (the script's directory when empty),
      then the script's stem, then the run's timestamp. */
  function StorageDir(basedir: string, scriptPath: string, stamp: string): (dir: string)
    ensures dir != ""
    ensures stamp != "" ==> HasSuffix(dir, "/" + stamp)
  {
    if basedir == "" then Layout(DirOf(scriptPath), scriptPath, stamp) else Layout(basedir, scriptPath, stamp)
  }

  /** The parent directory, then the script's stem, then the timestamp. */
  function Layout(parent: string, scriptPath: string, stamp: string): (dir: string)
    requires parent != ""
    ensures dir != ""
    ensures stamp != "" ==> HasSuffix(dir, "/" + stamp)
  {
    var elems := [parent, Stem(Base(scriptPath)), stamp];
    if stamp != "" then JoinEndsWithLast(elems); Join(elems) else Join(elems)
  }

  /** The storage directory when all three parts are present. */
  lemma StorageDirLayout(basedir: string, scriptPath: string, stamp: string)
    requires Stem(Base(scriptPath)) != "" && stamp != ""
    ensures basedir != "" ==> StorageDir(basedir, scriptPath, stamp) == basedir + "/" + Stem(Base(scriptPath)) + "/" + stamp
    ensures basedir == "" ==> StorageDir(basedir, scriptPath, stamp) == DirOf(scriptPath) + "/" + Stem(Base(scriptPath)) + "/" + stamp
  {
    var b := if basedir == "" then DirOf(scriptPath) else basedir;
    var e := [b, Stem(Base(scriptPath)), stamp];
    assert e[..2] == [b, Stem(Base(scriptPath))];
    JoinTwo(b, Stem(Base(scriptPath)));
  }

  // ---------------------------------------------------------------------
  // Bookkeeping as a state machine
  // ---------------------------------------------------------------------

  /** The artifacts saved so far, in order, and the pending downloads by guid. */
  datatype StorageState = StorageState(artifacts: seq<string>, guids: map<string, string>)

  datatype Op =
    | SaveOp(name: string, ext: string)
    | StartOp(guid: string, fileName: string)
    | CancelOp(guid: string)
    | CompleteOp(guid: string)

  /** The effect of one operation on a storage rooted at `dir`. */
  function Apply(dir: string, st: StorageState, op: Op): (r: StorageState)
    ensures st.artifacts <= r.artifacts && |r.artifacts| <= |st.artifacts| + 1
    ensures op.SaveOp? ==> r.guids == st.guids
    ensures op.StartOp? ==> r.guids == st.guids[op.guid := op.fileName]
    ensures op.CancelOp? || op.CompleteOp? ==> r.guids == st.guids - {op.guid}
  {
    match op
    case SaveOp(name, ext) => st.(artifacts := st.artifacts + [Join([dir, SaveName(name, ext)])])
    case StartOp(guid, fileName) => st.(guids := st.guids[guid := fileName])
    case CancelOp(guid) => st.(guids := st.guids - {guid})
    case CompleteOp(guid) =>
      if guid in st.guids then StorageState(st.artifacts + [Join([dir, st.guids[guid]])], st.guids - {guid})
      else st
  }

  function Run(dir: string, st: StorageState, ops: seq<Op>): StorageState
    decreases |ops|
  {
    if ops == [] then st else Run(dir, Apply(dir, st, ops[0]), ops[1..])
  }

  /** One operation adds at most one artifact and never changes the earlier ones. */
  lemma ApplyAppends(dir: string, st: StorageState, op: Op)
    ensures st.artifacts <= Apply(dir, st, op).artifacts
    ensures |Apply(dir, st, op).artifacts| <= |st.artifacts| + 1
    ensures op.SaveOp? ==> |Apply(dir, st, op).artifacts| == |st.artifacts| + 1
    ensures op.StartOp? || op.CancelOp? ==> Apply(dir, st, op).artifacts == st.artifacts
  {
  }

  /** The artifact list is append-only over any sequence of operations. */
  lemma {:induction false} RunAppendOnly(dir: string, st: StorageState, ops: seq<Op>)
    ensures st.artifacts <= Run(dir, st, ops).artifacts
    ensures |Run(dir, st, ops).artifacts| <= |st.artifacts| + |ops|
    decreases |ops|
  {
    if ops != [] {
      ApplyAppends(dir, st, ops[0]);
      RunAppendOnly(dir, Apply(dir, st, ops[0]), ops[1..]);
    }
  }

  /** Whether `path` is `dir` itself or lies below it. */
  predicate Under(path: string, dir: string) {
    path == dir || dir + "/" <= path
  }

  /** A name without a `..` element, joined to the directory, lies under it. */
  lemma JoinUnder(dir: string, name: string)
    requires dir != "" && NoParentElement(name)
    ensures Under(Join([dir, name]), dir)
  {
    assert [dir, name][..1] == [dir];
    assert [dir][..0] == [];
  }

  /** The names an operation may add to the storage directory have no `..` element. */
  predicate PlainNames(op: Op) {
    match op
    case SaveOp(name, ext) => NoParentElement(SaveName(name, ext))
    case StartOp(_, fileName) => NoParentElement(fileName)
    case _ => true
  }

  /** Every artifact recorded by a storage rooted at a non-empty `dir` lies in
      `dir`, as long as no saved or downloaded name has a `..` element. */
  lemma {:induction false} RunKeepsArtifactsUnder(dir: string, st: StorageState, ops: seq<Op>)
    requires dir != ""
    requires forall j :: 0 <= j < |st.artifacts| ==> Under(st.artifacts[j], dir)
    requires forall g :: g in st.guids ==> NoParentElement(st.guids[g])
    requires forall j :: 0 <= j < |ops| ==> PlainNames(ops[j])
    ensures forall j :: 0 <= j < |Run(dir, st, ops).artifacts| ==> Under(Run(dir, st, ops).artifacts[j], dir)
    decreases |ops|
  {
    if ops != [] {
      var next := Apply(dir, st, ops[0]);
      assert PlainNames(ops[0]);
      match ops[0] {
        case SaveOp(name, ext) => JoinUnder(dir, SaveName(name, ext));
        case CompleteOp(guid) => if guid in st.guids { JoinUnder(dir, st.guids[guid]); }
        case _ =>
      }
      assert forall j :: 0 <= j < |ops[1..]| ==> PlainNames(ops[1..][j]) by {
        forall j | 0 <= j < |ops[1..]| ensures PlainNames(ops[1..][j]) {
          assert ops[1..][j] == ops[j + 1];
        }
      }
      RunKeepsArtifactsUnder(dir, next, ops[1..]);
    }
  }

  /** A started download that completes adds its file once and is no longer pending. */
  lemma StartThenComplete(dir: string, st: StorageState, guid: string, fileName: string)
    ensures Run(dir, st, [StartOp(guid, fileName), CompleteOp(guid)])
            == StorageState(st.artifacts + [Join([dir, fileName])], st.guids - {guid})
  {
    var s1 := Apply(dir, st, StartOp(guid, fileName));
    assert [StartOp(guid, fileName), CompleteOp(guid)][1..] == [CompleteOp(guid)];
    assert Run(dir, s1, [CompleteOp(guid)]) == Apply(dir, s1, CompleteOp(guid)) by {
      assert [CompleteOp(guid)][1..] == [];
    }
    assert s1.guids - {guid} == st.guids - {guid};
  }

  /** A cancelled download that later reports completion records nothing. */
  lemma CancelThenComplete(dir: string, st: StorageState, guid: string)
    ensures Run(dir, st, [CancelOp(guid), CompleteOp(guid)]).artifacts == st.artifacts
    ensures guid !in Run(dir, st, [CancelOp(guid), CompleteOp(guid)]).guids
  {
    var s1 := Apply(dir, st, CancelOp(guid));
    assert [CancelOp(guid), CompleteOp(guid)][1..] == [CompleteOp(guid)];
    assert Run(dir, s1, [CompleteOp(guid)]) == Apply(dir, s1, CompleteOp(guid)) by {
      assert [CompleteOp(guid)][1..] == [];
    }
  }

  /** Completing an unknown guid changes nothing, so completing twice is completing once. */
  lemma CompleteUnknownIsNoop(dir: string, st: StorageState, guid: string)
    requires guid !in st.guids
    ensures Apply(dir, st, CompleteOp(guid)) == st
  {
  }

  lemma CompleteTwice(dir: string, st: StorageState, guid: string)
    ensures Apply(dir, Apply(dir, st, CompleteOp(guid)), CompleteOp(guid)) == Apply(dir, st, CompleteOp(guid))
  {
  }

  /** A later StartDownload for the same guid replaces the earlier name. */
  lemma StartOverwrites(dir: string, st: StorageState, guid: string, first: string, second: string)
    ensures Apply(dir, Apply(dir, st, StartOp(guid, first)), StartOp(guid, second)) == Apply(dir, st, StartOp(guid, second))
  {
  }

  // ---------------------------------------------------------------------
  // The Storage object
  // ---------------------------------------------------------------------

  class Storage {
    const Dir: string
    var artifacts: seq<string>
    var guids: map<string, string>

    function State(): StorageState
      reads this
    {
      StorageState(artifacts, guids)
    }

    /** NewStorage, without creating the directory. */
    constructor(basedir: string, scriptPath: string, stamp: string)
      ensures Dir == StorageDir(basedir, scriptPath, stamp)
      ensures artifacts == [] && guids == map[]
    {
      Dir := StorageDir(basedir, scriptPath, stamp);
      artifacts := [];
      guids := map[];
    }

    /** Save records the path before writing, so it is recorded even when the
        write fails; the write's error is returned. */
    method Save(name: string, ext: string, writeErr: Option<string>) returns (err: Option<string>)
      modifies this
      ensures artifacts == old(artifacts) + [Join([Dir, SaveName(name, ext)])]
      ensures guids == old(guids)
      ensures State() == Apply(Dir, old(State()), SaveOp(name, ext))
      ensures err == writeErr
    {
      var fileName := name;
      if !HasSuffix(fileName, ext) {
        fileName := fileName + ext;
      }
      var p := Join([Dir, fileName]);
      artifacts := artifacts + [p];
      err := writeErr;
    }

    method StartDownload(guid: string, fileName: string)
      modifies this
      ensures guids == old(guids)[guid := fileName]
      ensures artifacts == old(artifacts)
      ensures State() == Apply(Dir, old(State()), StartOp(guid, fileName))
    {
      guids := guids[guid := fileName];
    }

    method CancelDownload(guid: string)
      modifies this
      ensures guids == old(guids) - {guid}
      ensures artifacts == old(artifacts)
      ensures State() == Apply(Dir, old(State()), CancelOp(guid))
    {
      guids := guids - {guid};
    }

    method CompleteDownload(guid: string)
      modifies this
      ensures guid in old(guids) ==> artifacts == old(artifacts) + [Join([Dir, old(guids)[guid]])]
      ensures guid !in old(guids) ==> artifacts == old(artifacts)
      ensures guids == old(guids) - {guid}
      ensures State() == Apply(Dir, old(State()), CompleteOp(guid))
    {
      if guid in guids {
        var fileName := guids[guid];
        artifacts := artifacts + [Join([Dir, fileName])];
        guids := guids - {guid};
      }
    }

    /** A copy of the artifact list. */
    method Artifacts() returns (r: seq<string>)
      ensures r == artifacts
    {
      r := artifacts;
    }
  }
}
