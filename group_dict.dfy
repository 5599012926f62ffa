/** `build_group_dict`: for every configuration letter, the file names of
    each frame type used by the science exposures of that configuration,
    with the science and standard targets, as written to the `.sorted`
    file. The frame-type dictionary enters through its keys, each science
    exposure through the index of its first science frame, the per-type
    index lists through `index` and the file table through its `filename`
    and `target` columns. */
module GroupDict {
  import opened Common

  /** A file name or a target name, as it stands in the file table. */
  datatype Name = Name(s: string)
  type SubDict = map<string, seq<Name>>
  type GroupMap = map<char, SubDict>

  datatype Inputs = Inputs(
    ftypes: seq<string>,                 // the keys of `filesort`, in order
    setupIDs: seq<string>,               // one setup ID per science exposure
    sciIdx: seq<nat>,                    // `sciexp[sc]._idx_sci[0]`
    index: map<string, seq<seq<nat>>>,   // `settings.spect[key]['index']`
    filename: seq<Name>,               // `fitsdict['filename']`
    target: seq<Name>)                 // `fitsdict['target']`

  /** Frame types that get a list in a new configuration. */
  predicate Listed(key: string) { key != "unknown" && key != "dark" }

  /** Frame types whose files are collected. */
  predicate Filled(key: string) { Listed(key) && key != "failures" }

  /** What the source needs of its inputs: every setup ID has a first
      character, the file table's columns have one entry per file and every
      index points into it. The frame types are the keys of a dictionary and
      so distinct; the lemmas that depend on that say so with `NoDup` or
      `OnlyAt`. */
  predicate WellFormed(f: Inputs) {
    |f.filename| == |f.target| && Exposures(f) && AllIndexed(f)
  }

  /** Inputs the source can be called on. */
  type WfInputs = f: Inputs | WellFormed(f) witness Inputs([], [], [], map[], [], [])

  /** `k` occurs in `ftypes` at position `p` and nowhere else. */
  predicate OnlyAt(ftypes: seq<string>, k: string, p: nat) {
    p < |ftypes| && ftypes[p] == k && forall i :: 0 <= i < |ftypes| && ftypes[i] == k ==> i == p
  }

  lemma NoDupOnlyAt(ftypes: seq<string>, k: string)
    requires NoDup(ftypes) && k in ftypes
    ensures OnlyAt(ftypes, k, First(ftypes, k))
  {
  }

  predicate Exposures(f: Inputs) {
    |f.sciIdx| >= |f.setupIDs|
    && forall sc :: 0 <= sc < |f.setupIDs| ==> |f.setupIDs[sc]| > 0 && f.sciIdx[sc] < |f.filename|
  }

  predicate AllIndexed(f: Inputs) {
    forall k :: k in f.ftypes && Filled(k) ==> Indexed(f, k)
  }

  /** The index lists of frame type `k` cover every exposure and point into the file table. */
  predicate Indexed(f: Inputs, k: string) {
    k in f.index && |f.index[k]| >= |f.setupIDs|
    && forall sc :: 0 <= sc < |f.setupIDs| ==> Indices(f, f.index[k][sc])
  }

  function Config(f: WfInputs, sc: nat): char
    requires sc < |f.setupIDs|
  {
    f.setupIDs[sc][0]
  }

  // ---------------------------------------------------------------- the source's loops as folds

  /** The first `n` rounds of the loop creating a configuration's lists. */
  function InitUpTo(ftypes: seq<string>, n: nat): SubDict
    requires n <= |ftypes|
  {
    if n == 0 then map[]
    else
      var s := InitUpTo(ftypes, n - 1);
      var key := ftypes[n - 1];
      (if Listed(key) then s[key := []] else s)["sciobj" := []]["stdobj" := []]
  }

  lemma {:induction false} InitKeys(ftypes: seq<string>, n: nat)
    requires n <= |ftypes|
    ensures forall k :: k in InitUpTo(ftypes, n) ==> InitUpTo(ftypes, n)[k] == []
    ensures forall k :: k in InitUpTo(ftypes, n) <==>
      (Listed(k) && k in ftypes[..n]) || (n > 0 && (k == "sciobj" || k == "stdobj"))
  {
    if n > 0 {
      InitKeys(ftypes, n - 1);
      assert ftypes[..n] == ftypes[..n - 1] + [ftypes[n - 1]];
    }
  }

  /** The lists a new configuration starts with: an empty one per listed
      frame type, and the two target lists once there is any frame type. */
  function NewSub(ftypes: seq<string>): (s: SubDict)
    ensures forall k :: k in s ==> s[k] == []
    ensures forall k :: k in s <==> (Listed(k) && k in ftypes) || (|ftypes| > 0 && (k == "sciobj" || k == "stdobj"))
  {
    InitKeys(ftypes, |ftypes|);
    assert ftypes[..|ftypes|] == ftypes;
    InitUpTo(ftypes, |ftypes|)
  }

  predicate Ready(sub: SubDict, key: string) {
    key in sub && "sciobj" in sub && "stdobj" in sub
  }

  /** `sub` has the lists every filled frame type of `ftypes` writes to. */
  predicate Covers(sub: SubDict, ftypes: seq<string>) {
    forall k :: k in ftypes && Filled(k) ==> Ready(sub, k)
  }

  /** Files the frame at `idx` under `key`, unless its name is already
      there, and adds its target when it is a new standard; every science
      frame adds the exposure's science target. */
  function AddIndex(sub: SubDict, key: string, idx: nat, scidx: nat, f: Inputs): (r: SubDict)
    requires Ready(sub, key) && idx < |f.filename| == |f.target| && scidx < |f.target|
    ensures r.Keys == sub.Keys
  {
    var name := f.filename[idx];
    var s1 :=
      if name !in sub[key] then
        var s := sub[key := sub[key] + [name]];
        if key == "standard" then s["stdobj" := s["stdobj"] + [f.target[idx]]] else s
      else sub;
    if key == "science" then s1["sciobj" := s1["sciobj"] + [f.target[scidx]]] else s1
  }

  predicate Indices(f: Inputs, idxs: seq<nat>) {
    forall j :: 0 <= j < |idxs| ==> idxs[j] < |f.filename|
  }

  /** The loop over the frames of one type of one exposure. */
  function FillIdx(sub: SubDict, key: string, idxs: seq<nat>, scidx: nat, f: Inputs): (r: SubDict)
    requires Ready(sub, key) && |f.filename| == |f.target| && scidx < |f.target| && Indices(f, idxs)
    ensures r.Keys == sub.Keys
    decreases |idxs|
  {
    if |idxs| == 0 then sub
    else AddIndex(FillIdx(sub, key, idxs[..|idxs| - 1], scidx, f), key, idxs[|idxs| - 1], scidx, f)
  }

  /** The first `n` rounds of the loop over frame types for exposure `sc`. */
  function FillKeys(sub: SubDict, sc: nat, n: nat, f: WfInputs): (r: SubDict)
    requires sc < |f.setupIDs| && n <= |f.ftypes| && Covers(sub, f.ftypes)
    ensures r.Keys == sub.Keys
  {
    if n == 0 then sub
    else
      var s := FillKeys(sub, sc, n - 1, f);
      var key := f.ftypes[n - 1];
      if Filled(key) then FillIdx(s, key, f.index[key][sc], f.sciIdx[sc], f) else s
  }

  /** The first `n` rounds of the loop over science exposures. */
  function GroupUpTo(n: nat, f: WfInputs): (g: GroupMap)
    requires n <= |f.setupIDs|
    ensures g.Keys == Configs(n, f)
    ensures forall c :: c in g ==> g[c].Keys == NewSub(f.ftypes).Keys
  {
    if n == 0 then map[]
    else
      var g := GroupUpTo(n - 1, f);
      var c := Config(f, n - 1);
      var sub := if c in g then g[c] else NewSub(f.ftypes);
      g[c := FillKeys(sub, n - 1, |f.ftypes|, f)]
  }

  /** The dictionary `build_group_dict` returns. */
  function GroupSpec(f: WfInputs): GroupMap
  {
    GroupUpTo(|f.setupIDs|, f)
  }

  // ---------------------------------------------------------------- the method

  /** `build_group_dict`, with the source's loop over science exposures. */
  method BuildGroupDict(f: WfInputs) returns (groupDict: GroupMap)
    ensures groupDict == GroupSpec(f)
  {
    groupDict := map[];
    var sc := 0;
    while sc < |f.setupIDs|
      invariant sc <= |f.setupIDs| && groupDict == GroupUpTo(sc, f)
    {
      groupDict := AddExposure(groupDict, sc, f);
      sc := sc + 1;
    }
  }

  /** One round of the loop over science exposures. The source appends
      through the alias `group_dict[config_key]`; the model takes the
      configuration's dictionary out, fills it and stores it back, which
      leaves the same dictionary behind. */
  method AddExposure(g: GroupMap, sc: nat, f: WfInputs) returns (groupDict: GroupMap)
    requires sc < |f.setupIDs| && g == GroupUpTo(sc, f)
    ensures groupDict == GroupUpTo(sc + 1, f)
  {
    var configKey := f.setupIDs[sc][0];
    var sub: SubDict;
    if configKey in g {
      sub := g[configKey];
    } else {
      sub := NewConfig(f.ftypes);
    }
    StepReady(sc, f);
    sub := FillExposure(sub, sc, f);
    groupDict := g[configKey := sub];
  }

  lemma StepReady(sc: nat, f: WfInputs)
    requires sc < |f.setupIDs|
    ensures var g, c := GroupUpTo(sc, f), Config(f, sc);
      Covers(if c in g then g[c] else NewSub(f.ftypes), f.ftypes)
  {
  }

  lemma ReadyAt(sub0: SubDict, sc: nat, i: nat, f: WfInputs)
    requires sc < |f.setupIDs| && i < |f.ftypes| && Covers(sub0, f.ftypes)
    requires Filled(f.ftypes[i])
    ensures var key := f.ftypes[i];
      Ready(FillKeys(sub0, sc, i, f), key) && Indexed(f, key) && Indices(f, f.index[key][sc])
  {
    assert f.ftypes[i] in f.ftypes;
  }

  /** The plan for a configuration seen for the first time. */
  method NewConfig(ftypes: seq<string>) returns (sub: SubDict)
    ensures sub == NewSub(ftypes)
  {
    sub := map[];
    var i := 0;
    while i < |ftypes|
      invariant i <= |ftypes| && sub == InitUpTo(ftypes, i)
    {
      var key := ftypes[i];
      if Listed(key) {
        sub := sub[key := []];
      }
      sub := sub["sciobj" := []];
      sub := sub["stdobj" := []];
      i := i + 1;
    }
  }

  /** Files the frames of exposure `sc` in its configuration's dictionary. */
  method FillExposure(sub0: SubDict, sc: nat, f: WfInputs) returns (sub: SubDict)
    requires sc < |f.setupIDs| && Covers(sub0, f.ftypes)
    ensures sub == FillKeys(sub0, sc, |f.ftypes|, f)
  {
    sub := sub0;
    var i := 0;
    while i < |f.ftypes|
      invariant i <= |f.ftypes| && sub == FillKeys(sub0, sc, i, f)
    {
      sub := FillType(sub, sub0, sc, i, f);
      i := i + 1;
    }
  }

  /** One round of the loop over frame types: the frames of type `ftypes[i]`. */
  method FillType(sub: SubDict, ghost sub0: SubDict, sc: nat, i: nat, f: WfInputs) returns (r: SubDict)
    requires sc < |f.setupIDs| && i < |f.ftypes| && Covers(sub0, f.ftypes)
    requires sub == FillKeys(sub0, sc, i, f)
    ensures r == FillKeys(sub0, sc, i + 1, f)
  {
    var key := f.ftypes[i];
    if Filled(key) {
      ReadyAt(sub0, sc, i, f);
      r := AddFrames(sub, key, f.index[key][sc], f.sciIdx[sc], f);
    } else {
      r := sub;
    }
  }

  /** The loop over the frames of type `key` of one exposure. */
  method AddFrames(sub0: SubDict, key: string, idxs: seq<nat>, scidx: nat, f: Inputs) returns (sub: SubDict)
    requires Ready(sub0, key) && |f.filename| == |f.target| && scidx < |f.target| && Indices(f, idxs)
    ensures sub == FillIdx(sub0, key, idxs, scidx, f)
  {
    sub := sub0;
    var j := 0;
    while j < |idxs|
      invariant j <= |idxs| && sub == FillIdx(sub0, key, idxs[..j], scidx, f)
    {
      var idx := idxs[j];
      assert idxs[..j + 1][..j] == idxs[..j];
      // Only add if new
      if f.filename[idx] !in sub[key] {
        sub := sub[key := sub[key] + [f.filename[idx]]];
        if key == "standard" {
          sub := sub["stdobj" := sub["stdobj"] + [f.target[idx]]];
        }
      }
      if key == "science" {
        sub := sub["sciobj" := sub["sciobj"] + [f.target[scidx]]];
      }
      j := j + 1;
    }
    assert idxs[..|idxs|] == idxs;
  }
  // ---------------------------------------------------------------- what the dictionary holds

  /** A frame type other than the two target lists. */
  predicate Plain(k: string) { k != "sciobj" && k != "stdobj" }

  /** The configuration letters of the first `n` exposures. */
  function Configs(n: nat, f: WfInputs): set<char>
    requires n <= |f.setupIDs|
  {
    if n == 0 then {} else Configs(n - 1, f) + {Config(f, n - 1)}
  }

  /** A letter is a configuration exactly when some exposure's setup ID starts with it. */
  lemma {:induction false} GroupKeys(n: nat, f: WfInputs)
    requires n <= |f.setupIDs|
    ensures forall c :: c in Configs(n, f) <==> exists sc :: 0 <= sc < n && Config(f, sc) == c
  {
    if n > 0 {
      GroupKeys(n - 1, f);
    }
  }

  /** The dictionary of configuration `c` after the first `n` exposures,
      counting only the exposures of `c`. */
  function ConfigFold(c: char, n: nat, f: WfInputs): (s: SubDict)
    requires n <= |f.setupIDs|
    ensures s.Keys == NewSub(f.ftypes).Keys
  {
    if n == 0 then NewSub(f.ftypes)
    else
      var s := ConfigFold(c, n - 1, f);
      if Config(f, n - 1) == c then FillKeys(s, n - 1, |f.ftypes|, f) else s
  }

  /** A configuration's dictionary has the lists of every frame type and,
      once there is a frame type, the two target lists. */
  lemma FoldCovers(c: char, n: nat, f: WfInputs)
    requires n <= |f.setupIDs|
    ensures Covers(ConfigFold(c, n, f), f.ftypes)
    ensures |f.ftypes| > 0 ==> "sciobj" in ConfigFold(c, n, f) && "stdobj" in ConfigFold(c, n, f)
  {
  }

  /** A configuration no exposure has used yet still has its initial lists. */
  lemma {:induction false} ConfigFresh(c: char, n: nat, f: WfInputs)
    requires n <= |f.setupIDs| && c !in GroupUpTo(n, f)
    ensures ConfigFold(c, n, f) == NewSub(f.ftypes)
  {
    if n > 0 {
      assert Config(f, n - 1) != c;
      ConfigFresh(c, n - 1, f);
    }
  }

  /** Exposures of other configurations leave a configuration's dictionary alone. */
  lemma {:induction false} ConfigView(c: char, n: nat, f: WfInputs)
    requires n <= |f.setupIDs| && c in GroupUpTo(n, f)
    ensures GroupUpTo(n, f)[c] == ConfigFold(c, n, f)
  {
    var g := GroupUpTo(n - 1, f);
    var c2 := Config(f, n - 1);
    if c2 == c {
      var sub := if c in g then g[c] else NewSub(f.ftypes);
      assert sub == ConfigFold(c, n - 1, f) by {
        if c in g {
          ConfigView(c, n - 1, f);
        } else {
          ConfigFresh(c, n - 1, f);
        }
      }
    } else {
      assert c in g;
      ConfigView(c, n - 1, f);
    }
  }

  /** The file names of the frames at `idxs`. */
  function FileNames(f: Inputs, idxs: seq<nat>): seq<Name>
    requires Indices(f, idxs)
  {
    if |idxs| == 0 then [] else FileNames(f, idxs[..|idxs| - 1]) + [f.filename[idxs[|idxs| - 1]]]
  }

  /** The names of the type-`k` frames of the first `n` exposures of
      configuration `c`, repeats included. */
  function Files(c: char, k: string, n: nat, f: WfInputs): seq<Name>
    requires n <= |f.setupIDs| && k in f.ftypes && Filled(k)
  {
    if n == 0 then []
    else Files(c, k, n - 1, f) + (if Config(f, n - 1) == c then FileNames(f, f.index[k][n - 1]) else [])
  }

  /** Filing one frame under `key`: its name is added once. */
  lemma AddIndexKey(sub: SubDict, key: string, idx: nat, scidx: nat, f: Inputs)
    requires Ready(sub, key) && idx < |f.filename| == |f.target| && scidx < |f.target| && Plain(key)
    ensures var name := f.filename[idx];
      AddIndex(sub, key, idx, scidx, f)[key] == if name in sub[key] then sub[key] else sub[key] + [name]
  {
  }

  /** Filing one frame under `key` leaves the other frame types alone. */
  lemma AddIndexOther(sub: SubDict, key: string, idx: nat, scidx: nat, f: Inputs, k: string)
    requires Ready(sub, key) && idx < |f.filename| == |f.target| && scidx < |f.target|
    requires k in sub && k != key && Plain(k)
    ensures AddIndex(sub, key, idx, scidx, f)[k] == sub[k]
  {
  }

  lemma {:induction false} FillIdxFiles(sub: SubDict, key: string, idxs: seq<nat>, scidx: nat, f: Inputs, a: seq<Name>)
    requires Ready(sub, key) && |f.filename| == |f.target| && scidx < |f.target| && Indices(f, idxs)
    requires Plain(key) && sub[key] == Dedup(a)
    ensures FillIdx(sub, key, idxs, scidx, f)[key] == Dedup(a + FileNames(f, idxs))
    decreases |idxs|
  {
    if |idxs| > 0 {
      var init := idxs[..|idxs| - 1];
      var idx := idxs[|idxs| - 1];
      FillIdxFiles(sub, key, init, scidx, f, a);
      var prev := FillIdx(sub, key, init, scidx, f);
      AddIndexKey(prev, key, idx, scidx, f);
      var name := f.filename[idx];
      var ys := a + FileNames(f, init);
      var xs := a + FileNames(f, idxs);
      assert xs == ys + [name];
      assert xs[..|xs| - 1] == ys;
      assert Dedup(xs) == if name in Dedup(ys) then Dedup(ys) else Dedup(ys) + [name];
    } else {
      assert a + [] == a;
    }
  }

  lemma {:induction false} FillIdxOther(sub: SubDict, key: string, idxs: seq<nat>, scidx: nat, f: Inputs, k: string)
    requires Ready(sub, key) && |f.filename| == |f.target| && scidx < |f.target| && Indices(f, idxs)
    requires k in sub && k != key && Plain(k)
    ensures FillIdx(sub, key, idxs, scidx, f)[k] == sub[k]
    decreases |idxs|
  {
    if |idxs| > 0 {
      FillIdxOther(sub, key, idxs[..|idxs| - 1], scidx, f, k);
      AddIndexOther(FillIdx(sub, key, idxs[..|idxs| - 1], scidx, f), key, idxs[|idxs| - 1], scidx, f, k);
    }
  }

  lemma {:induction false} FillKeysFiles(sub: SubDict, sc: nat, m: nat, f: WfInputs, k: string, p: nat, a: seq<Name>)
    requires sc < |f.setupIDs| && m <= |f.ftypes| && Covers(sub, f.ftypes)
    requires OnlyAt(f.ftypes, k, p) && Filled(k) && Plain(k) && sub[k] == Dedup(a)
    ensures FillKeys(sub, sc, m, f)[k]
         == if p < m then Dedup(a + FileNames(f, f.index[k][sc])) else Dedup(a)
  {
    if m > 0 {
      FillKeysFiles(sub, sc, m - 1, f, k, p, a);
      if m - 1 == p {
        FillKeysOwnStep(sub, sc, m, f, k, a);
      } else {
        FillKeysOtherStep(sub, sc, m, f, k);
      }
    }
  }

  /** The round for frame type `k` files its frames of exposure `sc`. */
  lemma FillKeysOwnStep(sub: SubDict, sc: nat, m: nat, f: WfInputs, k: string, a: seq<Name>)
    requires sc < |f.setupIDs| && 0 < m <= |f.ftypes| && Covers(sub, f.ftypes)
    requires f.ftypes[m - 1] == k && Filled(k) && Plain(k) && FillKeys(sub, sc, m - 1, f)[k] == Dedup(a)
    ensures FillKeys(sub, sc, m, f)[k] == Dedup(a + FileNames(f, f.index[k][sc]))
  {
    ReadyAt(sub, sc, m - 1, f);
    FillIdxFiles(FillKeys(sub, sc, m - 1, f), k, f.index[k][sc], f.sciIdx[sc], f, a);
  }

  /** The round for any other frame type leaves the list of `k` alone. */
  lemma FillKeysOtherStep(sub: SubDict, sc: nat, m: nat, f: WfInputs, k: string)
    requires sc < |f.setupIDs| && 0 < m <= |f.ftypes| && Covers(sub, f.ftypes)
    requires k in sub && Plain(k) && (Filled(f.ftypes[m - 1]) ==> f.ftypes[m - 1] != k)
    ensures FillKeys(sub, sc, m, f)[k] == FillKeys(sub, sc, m - 1, f)[k]
  {
    var key := f.ftypes[m - 1];
    if Filled(key) {
      ReadyAt(sub, sc, m - 1, f);
      FillIdxOther(FillKeys(sub, sc, m - 1, f), key, f.index[key][sc], f.sciIdx[sc], f, k);
    }
  }

  lemma ConfigFilesOwn(c: char, n: nat, f: WfInputs, k: string, p: nat)
    requires 0 < n <= |f.setupIDs| && OnlyAt(f.ftypes, k, p) && Filled(k) && Plain(k)
    requires ConfigFold(c, n - 1, f)[k] == Dedup(Files(c, k, n - 1, f))
    requires Config(f, n - 1) == c
    ensures ConfigFold(c, n, f)[k] == Dedup(Files(c, k, n, f))
  {
    FoldCovers(c, n - 1, f);
    FillKeysFiles(ConfigFold(c, n - 1, f), n - 1, |f.ftypes|, f, k, p, Files(c, k, n - 1, f));
  }

  lemma ConfigFilesSkip(c: char, n: nat, f: WfInputs, k: string)
    requires 0 < n <= |f.setupIDs| && k in f.ftypes && Filled(k) && Plain(k)
    requires ConfigFold(c, n - 1, f)[k] == Dedup(Files(c, k, n - 1, f))
    requires Config(f, n - 1) != c
    ensures ConfigFold(c, n, f)[k] == Dedup(Files(c, k, n, f))
  {
    var a := Files(c, k, n - 1, f);
    assert Files(c, k, n, f) == a + [];
    assert a + [] == a;
  }

  lemma {:induction false} ConfigFiles(c: char, n: nat, f: WfInputs, k: string, p: nat)
    requires n <= |f.setupIDs| && OnlyAt(f.ftypes, k, p) && Filled(k) && Plain(k)
    ensures ConfigFold(c, n, f)[k] == Dedup(Files(c, k, n, f))
  {
    if n > 0 {
      ConfigFiles(c, n - 1, f, k, p);
      if Config(f, n - 1) == c {
        ConfigFilesOwn(c, n, f, k, p);
      } else {
        ConfigFilesSkip(c, n, f, k);
      }
    } else {
      assert NewSub(f.ftypes)[k] == [];
    }
  }

  lemma {:induction false} FileNamesMembers(f: Inputs, idxs: seq<nat>)
    requires Indices(f, idxs)
    ensures forall name :: name in FileNames(f, idxs) <==> exists j :: 0 <= j < |idxs| && f.filename[idxs[j]] == name
    decreases |idxs|
  {
    if |idxs| > 0 {
      var init := idxs[..|idxs| - 1];
      FileNamesMembers(f, init);
      forall name | name in FileNames(f, init)
        ensures exists j :: 0 <= j < |idxs| && f.filename[idxs[j]] == name
      {
        var j :| 0 <= j < |init| && f.filename[init[j]] == name;
        assert idxs[j] == init[j];
      }
      forall j | 0 <= j < |init| ensures f.filename[idxs[j]] in FileNames(f, init) {
        assert idxs[j] == init[j];
      }
    }
  }

  lemma {:induction false} FilesMembers(c: char, k: string, n: nat, f: WfInputs)
    requires n <= |f.setupIDs| && k in f.ftypes && Filled(k)
    ensures forall name :: name in Files(c, k, n, f) <==>
      exists sc, j :: 0 <= sc < n && Config(f, sc) == c && 0 <= j < |f.index[k][sc]| && f.filename[f.index[k][sc][j]] == name
  {
    if n > 0 {
      FilesMembers(c, k, n - 1, f);
      var sc := n - 1;
      if Config(f, sc) == c {
        FileNamesMembers(f, f.index[k][sc]);
      }
    }
  }

  /** `build_group_dict` never files a name twice: each file list of a
      configuration holds the names of that type's frames of the
      configuration's exposures, each once, in order of first appearance. */
  lemma GroupFiles(f: WfInputs, c: char, k: string)
    requires NoDup(f.ftypes) && c in GroupSpec(f) && k in f.ftypes && Filled(k) && Plain(k)
    ensures GroupSpec(f)[c][k] == Dedup(Files(c, k, |f.setupIDs|, f))
    ensures NoDup(GroupSpec(f)[c][k])
    ensures forall name :: name in GroupSpec(f)[c][k] <==>
      exists sc, j :: 0 <= sc < |f.setupIDs| && Config(f, sc) == c && 0 <= j < |f.index[k][sc]|
                      && f.filename[f.index[k][sc][j]] == name
  {
    ConfigView(c, |f.setupIDs|, f);
    NoDupOnlyAt(f.ftypes, k);
    ConfigFiles(c, |f.setupIDs|, f, k, First(f.ftypes, k));
    FilesMembers(c, k, |f.setupIDs|, f);
    DedupNoDup(Files(c, k, |f.setupIDs|, f));
    DedupMembers(Files(c, k, |f.setupIDs|, f));
  }

  /** The configuration letters of the result. */
  lemma GroupConfigs(f: WfInputs)
    ensures forall c :: c in GroupSpec(f) <==> exists sc :: 0 <= sc < |f.setupIDs| && Config(f, sc) == c
  {
    GroupKeys(|f.setupIDs|, f);
  }
  // ---------------------------------------------------------------- standard targets

  /** One standard target per standard file. */
  predicate Balanced(s: SubDict) {
    "standard" in s && "stdobj" in s && |s["stdobj"]| == |s["standard"]|
  }

  lemma AddIndexBalanced(sub: SubDict, key: string, idx: nat, scidx: nat, f: Inputs)
    requires Ready(sub, key) && idx < |f.filename| == |f.target| && scidx < |f.target|
    requires key != "stdobj" && Balanced(sub)
    ensures Balanced(AddIndex(sub, key, idx, scidx, f))
  {
  }

  lemma {:induction false} FillIdxBalanced(sub: SubDict, key: string, idxs: seq<nat>, scidx: nat, f: Inputs)
    requires Ready(sub, key) && |f.filename| == |f.target| && scidx < |f.target| && Indices(f, idxs)
    requires key != "stdobj" && Balanced(sub)
    ensures Balanced(FillIdx(sub, key, idxs, scidx, f))
    decreases |idxs|
  {
    if |idxs| > 0 {
      FillIdxBalanced(sub, key, idxs[..|idxs| - 1], scidx, f);
      AddIndexBalanced(FillIdx(sub, key, idxs[..|idxs| - 1], scidx, f), key, idxs[|idxs| - 1], scidx, f);
    }
  }

  lemma {:induction false} FillKeysBalanced(sub: SubDict, sc: nat, m: nat, f: WfInputs)
    requires sc < |f.setupIDs| && m <= |f.ftypes| && Covers(sub, f.ftypes)
    requires "stdobj" !in f.ftypes && Balanced(sub)
    ensures Balanced(FillKeys(sub, sc, m, f))
  {
    if m > 0 {
      FillKeysBalanced(sub, sc, m - 1, f);
      var key := f.ftypes[m - 1];
      if Filled(key) {
        ReadyAt(sub, sc, m - 1, f);
        FillIdxBalanced(FillKeys(sub, sc, m - 1, f), key, f.index[key][sc], f.sciIdx[sc], f);
      }
    }
  }

  lemma {:induction false} ConfigBalanced(c: char, n: nat, f: WfInputs)
    requires n <= |f.setupIDs| && "standard" in f.ftypes && "stdobj" !in f.ftypes
    ensures Balanced(ConfigFold(c, n, f))
  {
    if n > 0 {
      ConfigBalanced(c, n - 1, f);
      if Config(f, n - 1) == c {
        FoldCovers(c, n - 1, f);
        FillKeysBalanced(ConfigFold(c, n - 1, f), n - 1, |f.ftypes|, f);
      }
    } else {
      assert "standard" in NewSub(f.ftypes) && "stdobj" in NewSub(f.ftypes);
    }
  }

  /** Every standard file filed in a configuration adds exactly one standard target. */
  lemma GroupStdTargets(f: WfInputs, c: char)
    requires c in GroupSpec(f) && "standard" in f.ftypes && "stdobj" !in f.ftypes
    ensures "standard" in GroupSpec(f)[c] && "stdobj" in GroupSpec(f)[c]
    ensures |GroupSpec(f)[c]["stdobj"]| == |GroupSpec(f)[c]["standard"]|
  {
    ConfigView(c, |f.setupIDs|, f);
    ConfigBalanced(c, |f.setupIDs|, f);
  }

  // ---------------------------------------------------------------- science targets

  /** `n` copies of `x`. */
  function Copies(x: Name, n: nat): (r: seq<Name>)
    ensures |r| == n && forall i :: 0 <= i < n ==> r[i] == x
  {
    if n == 0 then [] else Copies(x, n - 1) + [x]
  }

  lemma AddIndexSci(sub: SubDict, key: string, idx: nat, scidx: nat, f: Inputs)
    requires Ready(sub, key) && idx < |f.filename| == |f.target| && scidx < |f.target| && key != "sciobj"
    ensures AddIndex(sub, key, idx, scidx, f)["sciobj"]
         == sub["sciobj"] + (if key == "science" then [f.target[scidx]] else [])
  {
    if key != "science" {
      assert sub["sciobj"] + [] == sub["sciobj"];
    }
  }

  lemma {:induction false} FillIdxSci(sub: SubDict, key: string, idxs: seq<nat>, scidx: nat, f: Inputs)
    requires Ready(sub, key) && |f.filename| == |f.target| && scidx < |f.target| && Indices(f, idxs)
    requires key != "sciobj"
    ensures FillIdx(sub, key, idxs, scidx, f)["sciobj"]
         == sub["sciobj"] + (if key == "science" then Copies(f.target[scidx], |idxs|) else [])
    decreases |idxs|
  {
    if |idxs| > 0 {
      var init := idxs[..|idxs| - 1];
      FillIdxSci(sub, key, init, scidx, f);
      AddIndexSci(FillIdx(sub, key, init, scidx, f), key, idxs[|idxs| - 1], scidx, f);
      if key != "science" {
        assert sub["sciobj"] + [] + [] == sub["sciobj"] + [];
      } else {
        var x := f.target[scidx];
        assert sub["sciobj"] + Copies(x, |init|) + [x] == sub["sciobj"] + Copies(x, |idxs|);
      }
    } else {
      assert sub["sciobj"] + [] == sub["sciobj"];
    }
  }

  /** The science targets exposure `sc` adds: one per science frame index. */
  function SciOf(sc: nat, f: WfInputs): seq<Name>
    requires sc < |f.setupIDs| && "science" in f.ftypes
  {
    assert Filled("science") && Indexed(f, "science");
    Copies(f.target[f.sciIdx[sc]], |f.index["science"][sc]|)
  }

  lemma {:induction false} FillKeysSci(sub: SubDict, sc: nat, m: nat, f: WfInputs, p: nat)
    requires sc < |f.setupIDs| && m <= |f.ftypes| && Covers(sub, f.ftypes)
    requires "sciobj" !in f.ftypes && "sciobj" in sub && OnlyAt(f.ftypes, "science", p)
    ensures FillKeys(sub, sc, m, f)["sciobj"] == sub["sciobj"] + (if p < m then SciOf(sc, f) else [])
  {
    if m > 0 {
      FillKeysSci(sub, sc, m - 1, f, p);
      var key := f.ftypes[m - 1];
      if Filled(key) {
        ReadyAt(sub, sc, m - 1, f);
        FillIdxSci(FillKeys(sub, sc, m - 1, f), key, f.index[key][sc], f.sciIdx[sc], f);
        if key == "science" {
          assert sub["sciobj"] + [] + SciOf(sc, f) == sub["sciobj"] + SciOf(sc, f);
        }
      }
    } else {
      assert sub["sciobj"] + [] == sub["sciobj"];
    }
  }

  /** The science targets of the first `n` exposures of configuration `c`. */
  function SciTargets(c: char, n: nat, f: WfInputs): seq<Name>
    requires n <= |f.setupIDs| && "science" in f.ftypes
  {
    if n == 0 then []
    else SciTargets(c, n - 1, f) + (if Config(f, n - 1) == c then SciOf(n - 1, f) else [])
  }

  lemma {:induction false} ConfigSci(c: char, n: nat, f: WfInputs, p: nat)
    requires n <= |f.setupIDs| && "sciobj" !in f.ftypes && OnlyAt(f.ftypes, "science", p)
    ensures ConfigFold(c, n, f)["sciobj"] == SciTargets(c, n, f)
  {
    if n > 0 {
      ConfigSci(c, n - 1, f, p);
      var t := SciTargets(c, n - 1, f);
      if Config(f, n - 1) == c {
        FoldCovers(c, n - 1, f);
        FillKeysSci(ConfigFold(c, n - 1, f), n - 1, |f.ftypes|, f, p);
      } else {
        assert t + [] == t;
      }
    } else {
      assert NewSub(f.ftypes)["sciobj"] == [];
    }
  }

  /** The science target list of a configuration repeats each exposure's
      target once per science frame index of that exposure, duplicates
      included, in exposure order. */
  lemma GroupSciTargets(f: WfInputs, c: char)
    requires NoDup(f.ftypes) && c in GroupSpec(f) && "science" in f.ftypes && "sciobj" !in f.ftypes
    ensures "sciobj" in GroupSpec(f)[c] && GroupSpec(f)[c]["sciobj"] == SciTargets(c, |f.setupIDs|, f)
  {
    ConfigView(c, |f.setupIDs|, f);
    NoDupOnlyAt(f.ftypes, "science");
    ConfigSci(c, |f.setupIDs|, f, First(f.ftypes, "science"));
  }

  // ---------------------------------------------------------------- lists never filled

  lemma {:induction false} FillKeysOther(sub: SubDict, sc: nat, m: nat, f: WfInputs, k: string)
    requires sc < |f.setupIDs| && m <= |f.ftypes| && Covers(sub, f.ftypes)
    requires k in sub && Plain(k) && !Filled(k)
    ensures FillKeys(sub, sc, m, f)[k] == sub[k]
  {
    if m > 0 {
      FillKeysOther(sub, sc, m - 1, f, k);
      FillKeysOtherStep(sub, sc, m, f, k);
    }
  }

  lemma {:induction false} ConfigFailures(c: char, n: nat, f: WfInputs)
    requires n <= |f.setupIDs| && "failures" in f.ftypes
    ensures ConfigFold(c, n, f)["failures"] == []
  {
    assert "failures" in NewSub(f.ftypes);
    if n > 0 {
      ConfigFailures(c, n - 1, f);
      if Config(f, n - 1) == c {
        FoldCovers(c, n - 1, f);
        FillKeysOther(ConfigFold(c, n - 1, f), n - 1, |f.ftypes|, f, "failures");
      }
    }
  }

  /** A `failures` list is created for each configuration but never filled. */
  lemma GroupFailures(f: WfInputs, c: char)
    requires c in GroupSpec(f) && "failures" in f.ftypes
    ensures "failures" in GroupSpec(f)[c] && GroupSpec(f)[c]["failures"] == []
  {
    ConfigView(c, |f.setupIDs|, f);
    ConfigFailures(c, |f.setupIDs|, f);
  }

  /** With no frame types there are no lists at all, not even the target lists. */
  lemma GroupNoTypes(f: WfInputs, c: char)
    requires c in GroupSpec(f) && |f.ftypes| == 0
    ensures GroupSpec(f)[c] == map[]
  {
    ConfigView(c, |f.setupIDs|, f);
    assert GroupSpec(f)[c].Keys == NewSub(f.ftypes).Keys == {};
  }
}
