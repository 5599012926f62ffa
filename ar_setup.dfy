/** Setup identifiers: the detector key (`01`, `02`, …), the calibration-set
    name (`aa`, `ab`, …) and the instrument configuration letter (`A`, `B`, …)
    that together form an ID such as `A_01_aa`. Each is allocated first-fit in
    a dictionary that the allocation updates in place. */
module ArSetup {
  import opened Common
  import opened PyText
  import opened Sorting

  // ---------------------------------------------------------------- header values

  /** A header value as the setup dictionaries store it. */
  datatype Scalar = SInt(i: int) | SFloat(x: real) | SStr(s: string)

  function Num(a: Scalar): real
    requires !a.SStr?
  {
    if a.SInt? then a.i as real else a.x
  }

  /** Python's `==` on header values: ints and floats compare by value. */
  predicate PyEq(a: Scalar, b: Scalar) {
    if a.SStr? || b.SStr? then a == b else Num(a) == Num(b)
  }

  lemma PyEqReflexive(a: Scalar)
    ensures PyEq(a, a)
  {
  }

  function Abs(x: real): real { if x < 0.0 then -x else x }

  /** `np.isclose(a, b, rtol=1e-3)` with numpy's default absolute tolerance. */
  predicate Close(a: real, b: real) {
    Abs(a - b) <= 0.00000001 + 0.001 * Abs(b)
  }

  /** A configuration entry: a value or, one level deep, a dict of values. */
  datatype Field = Leaf(v: Scalar) | Sub(m: map<string, Scalar>)

  /** The configuration dict `instr_setup` builds: `disperser`, `dichroic`, `slit`. */
  type ConfigDict = map<string, Field>

  // ---------------------------------------------------------------- det_setup

  /** A detector dictionary: `binning`, `det`, `namp`. */
  type DetDict = map<string, Scalar>

  /** Candidate `k` (from 0) of `det_setup`: the two-digit number `k + 1`. */
  function DetKey(k: nat): string {
    FormatInt(k + 1, 2)
  }

  /** Different candidates are different keys. */
  lemma DetKeyInjective(j: nat, k: nat)
    requires DetKey(j) == DetKey(k)
    ensures j == k
  {
    FormatParse(j + 1, 2);
    FormatParse(k + 1, 2);
  }

  /** `det_setup`'s comparison of a stored detector dict with the new one:
      every stored key is looked up in the new dict, a KeyError when absent,
      and all of them are compared (the `&=` does not stop early). */
  function DetMatch(stored: DetDict, ddict: DetDict): Result<bool> {
    if forall f :: f in stored ==> f in ddict then Ok(forall f :: f in stored ==> PyEq(stored[f], ddict[f]))
    else Err("KeyError")
  }

  /** A dict matches itself. */
  lemma DetMatchSelf(d: DetDict)
    ensures DetMatch(d, d) == Ok(true)
  {
    forall f | f in d ensures PyEq(d[f], d[f]) {
      PyEqReflexive(d[f]);
    }
  }

  /** `det_setup` from candidate `k` on: the key returned and the detector
      entries afterwards. After the 99th candidate the loop variable keeps its
      last value, so a full table with no match returns `99` unchanged. */
  function DetFrom(dets: map<string, DetDict>, ddict: DetDict, k: nat): Result<(string, map<string, DetDict>)>
    requires k < 99
    decreases 99 - k
  {
    var key := DetKey(k);
    if key !in dets then Ok((key, dets[key := ddict]))
    else
      match DetMatch(dets[key], ddict)
      case Err(e) => Err(e)
      case Ok(m) => if m || k == 98 then Ok((key, dets)) else DetFrom(dets, ddict, k + 1)
  }

  function DetSpec(dets: map<string, DetDict>, ddict: DetDict): Result<(string, map<string, DetDict>)> {
    DetFrom(dets, ddict, 0)
  }

  /** The candidates before `k` are all used and none of them matches. */
  predicate PassedOver(dets: map<string, DetDict>, ddict: DetDict, k: nat) {
    forall j :: 0 <= j < k ==> DetKey(j) in dets && DetMatch(dets[DetKey(j)], ddict) == Ok(false)
  }

  /** First fit: the key returned is candidate `k`, every earlier candidate is
      used and differs, and the key is either bound to `ddict` (when unused),
      a matching entry, or the last candidate; no entry is ever overwritten. */
  lemma {:induction false} DetFromFirstFit(dets: map<string, DetDict>, ddict: DetDict, k0: nat)
    requires k0 < 99 && PassedOver(dets, ddict, k0)
    requires DetFrom(dets, ddict, k0).Ok?
    ensures var (key, d2) := DetFrom(dets, ddict, k0).value;
      exists k :: k0 <= k < 99 && key == DetKey(k) && PassedOver(dets, ddict, k) &&
        (key !in dets ==> d2 == dets[key := ddict]) &&
        (key in dets ==> d2 == dets && (DetMatch(dets[key], ddict) == Ok(true) || k == 98))
    decreases 99 - k0
  {
    var key := DetKey(k0);
    if key in dets && DetMatch(dets[key], ddict) == Ok(false) && k0 < 98 {
      assert PassedOver(dets, ddict, k0 + 1);
      DetFromFirstFit(dets, ddict, k0 + 1);
    } else {
      assert key == DetKey(k0);
    }
  }

  lemma DetSetupFirstFit(dets: map<string, DetDict>, ddict: DetDict)
    requires DetSpec(dets, ddict).Ok?
    ensures var (key, d2) := DetSpec(dets, ddict).value;
      exists k :: 0 <= k < 99 && key == DetKey(k) && PassedOver(dets, ddict, k) &&
        (key !in dets ==> d2 == dets[key := ddict]) &&
        (key in dets ==> d2 == dets && (DetMatch(dets[key], ddict) == Ok(true) || k == 98))
  {
    DetFromFirstFit(dets, ddict, 0);
  }

  /** Existing detector entries are never modified; at most the key returned is added. */
  lemma DetSetupKeeps(dets: map<string, DetDict>, ddict: DetDict)
    requires DetSpec(dets, ddict).Ok?
    ensures var (key, d2) := DetSpec(dets, ddict).value;
      d2.Keys == dets.Keys + {key} && (forall n :: n in dets ==> d2[n] == dets[n]) &&
      (key !in dets ==> d2[key] == ddict)
  {
    DetSetupFirstFit(dets, ddict);
  }

  /** A second call with the same detector dict returns the same key and
      changes nothing. */
  lemma {:induction false} DetFromIdempotent(dets: map<string, DetDict>, ddict: DetDict, k0: nat)
    requires k0 < 99 && PassedOver(dets, ddict, k0)
    requires DetFrom(dets, ddict, k0).Ok?
    ensures var (key, d2) := DetFrom(dets, ddict, k0).value;
      DetFrom(d2, ddict, k0) == Ok((key, d2))
    decreases 99 - k0
  {
    var key := DetKey(k0);
    var (rkey, d2) := DetFrom(dets, ddict, k0).value;
    if key !in dets {
      DetMatchSelf(ddict);
      assert d2 == dets[key := ddict];
    } else if DetMatch(dets[key], ddict) == Ok(false) && k0 < 98 {
      assert PassedOver(dets, ddict, k0 + 1);
      DetFromIdempotent(dets, ddict, k0 + 1);
      DetFromFirstFit(dets, ddict, k0 + 1);
      var k :| k0 + 1 <= k < 99 && rkey == DetKey(k) && PassedOver(dets, ddict, k) &&
        (rkey !in dets ==> d2 == dets[rkey := ddict]) && (rkey in dets ==> d2 == dets);
      if rkey == key {
        DetKeyInjective(k, k0);
      }
      assert key in d2 && d2[key] == dets[key];
    }
  }

  lemma DetSetupIdempotent(dets: map<string, DetDict>, ddict: DetDict)
    requires DetSpec(dets, ddict).Ok?
    ensures var (key, d2) := DetSpec(dets, ddict).value;
      DetSpec(d2, ddict) == Ok((key, d2))
  {
    DetFromIdempotent(dets, ddict, 0);
  }

  /** `det_setup` fails only on a stored dict with a key the new one lacks. */
  lemma {:induction false} DetFromErr(dets: map<string, DetDict>, ddict: DetDict, k0: nat)
    requires k0 < 99 && DetFrom(dets, ddict, k0).Err?
    ensures exists n, f :: n in dets && f in dets[n] && f !in ddict
    decreases 99 - k0
  {
    var key := DetKey(k0);
    if DetMatch(dets[key], ddict).Err? {
      var f :| f in dets[key] && f !in ddict;
    } else {
      DetFromErr(dets, ddict, k0 + 1);
    }
  }

  // ---------------------------------------------------------------- calib_set

  /** The file names of one science exposure's frames, by frame type. */
  datatype Exposure = Exposure(arcs: seq<string>, bias: seq<string>, trace: seq<string>,
                               flat: seq<string>, sci: seq<string>, cent: seq<string>)

  /** A calibration set: frame type to file names. */
  type CalibSet = map<string, seq<string>>

  const CbKeys: seq<string> := ["arcs", "bias", "trace", "flat", "sci", "cent"]

  function StrLeFn(a: string, b: string): bool { StrLe(a, b) }

  lemma StrLeFnTotal()
    ensures TotalOrder(StrLeFn)
  {
    forall a, b ensures StrLeFn(a, b) || StrLeFn(b, a) {
      StrLeTotal(a, b);
    }
    forall a, b, c | StrLeFn(a, b) && StrLeFn(b, c) ensures StrLeFn(a, c) {
      StrLeTransitive(a, b, c);
    }
  }

  /** `list.sort()` on file names. */
  function SortNames(names: seq<string>): seq<string> {
    SortBy(names, StrLeFn)
  }

  /** The frames of one type, `sciexp._idx_<type>` by file name. */
  function Frames(e: Exposure, kind: string): seq<string> {
    if kind == "arcs" then e.arcs else if kind == "bias" then e.bias
    else if kind == "trace" then e.trace else if kind == "flat" then e.flat
    else if kind == "sci" then e.sci else e.cent
  }

  /** The set `calib_set` builds from an exposure, every list sorted. */
  function NewCbset(e: Exposure): (r: CalibSet)
    ensures r.Keys == set k | k in CbKeys
  {
    map k | k in CbKeys :: SortNames(Frames(e, k))
  }

  /** The loop of `calib_set` that builds the new set, one frame type at a
      time; a type without frames gets an empty list. */
  method BuildCbset(e: Exposure) returns (nw: CalibSet)
    ensures nw == NewCbset(e)
  {
    nw := map[];
    var i := 0;
    while i < |CbKeys|
      invariant 0 <= i <= |CbKeys|
      invariant nw.Keys == set j | 0 <= j < i :: CbKeys[j]
      invariant forall k :: k in nw ==> nw[k] == SortNames(Frames(e, k))
    {
      var kind := CbKeys[i];
      var frames := Frames(e, kind);
      var nms := if |frames| != 0 then SortNames(frames) else [];
      nw := nw[kind := nms];
      i := i + 1;
    }
    assert nw.Keys == NewCbset(e).Keys;
  }

  /** Every list of the new set is sorted and holds the exposure's names. */
  lemma SortNamesSpec(names: seq<string>)
    ensures Sorted(SortNames(names), StrLeFn)
    ensures multiset(SortNames(names)) == multiset(names)
  {
    StrLeFnTotal();
    SortBySorted(names, StrLeFn);
  }

  /** Candidate `k` of `calib_set`, from `aa`: first letter `a`..`d`, second `a`..`z`. */
  function CalibName(k: nat): string
    requires k < 104
  {
    ["abcd"[k / 26], ('a' as int + k % 26) as char]
  }

  /** The 104 candidates are distinct and `aa` comes first. */
  lemma CalibNameInjective(j: nat, k: nat)
    requires j < 104 && k < 104 && CalibName(j) == CalibName(k)
    ensures j == k
  {
    assert "abcd"[j / 26] == "abcd"[k / 26];
    assert j / 26 == k / 26;
    assert j % 26 == k % 26;
  }

  /** The keys of the new set whose lists differ from the default set's:
      those the loop does not pop. */
  function Differing(dflt: CalibSet, nw: CalibSet): (left: CalibSet)
    ensures left.Keys <= nw.Keys
  {
    map k | k in nw && !(k in dflt && dflt[k] == nw[k]) :: nw[k]
  }

  /** The match test of the loop over `cb_strs[1:]` against a stored set:
      every differing key must be stored, and every differing list other
      than the science frames is compared with the default set's `cent`
      list, because the comparison reads the variable left over from the
      earlier loop over the frame types, whose last value is `cent`. */
  predicate StaleMatch(stored: CalibSet, dcent: seq<string>, left: CalibSet) {
    (forall key :: key in left ==> key in stored) &&
    (forall key :: key in left && key != "sci" ==> left[key] == dcent)
  }

  /** A match makes the loop look up the science frames of the differing
      lists, a KeyError when they were popped; otherwise a match has no
      effect and the loop goes on to the next name. */
  predicate StaleRaises(stored: CalibSet, dcent: seq<string>, left: CalibSet) {
    StaleMatch(stored, dcent, left) && "sci" !in left
  }

  /** Candidate `j` is used and the loop passes over it without an error. */
  predicate PassedCalib(calibs: map<string, CalibSet>, dcent: seq<string>, left: CalibSet, j: nat)
    requires j < 104
  {
    CalibName(j) in calibs && !StaleRaises(calibs[CalibName(j)], dcent, left)
  }

  /** The loop over `cb_strs[1:]` from candidate `k`, with `dcent` the
      default set's `cent` list: the first unused name receives the set, a
      used name whose set matches raises a KeyError when the science frames
      were popped, and any other used name is passed over. With every name
      used the loop ends on `dz` and stores nothing. */
  function CalibFrom(calibs: map<string, CalibSet>, dcent: seq<string>, left: CalibSet, k: nat): Result<(string, map<string, CalibSet>)>
    requires 1 <= k < 104
    decreases 104 - k
  {
    var name := CalibName(k);
    if name !in calibs then Ok((name, calibs[name := left]))
    else if StaleRaises(calibs[name], dcent, left) then Err("KeyError")
    else if k == 103 then Ok((name, calibs))
    else CalibFrom(calibs, dcent, left, k + 1)
  }

  /** Every frame type has a list. A default set read back from a setup file
      may lack some, and `calib_set` then fails on the lookup. */
  predicate HasCbKeys(d: CalibSet) {
    "arcs" in d && "bias" in d && "trace" in d && "flat" in d && "sci" in d && "cent" in d
  }

  /** `calib_set` once the new set `nw` is built: the name of the calibration
      set the exposure belongs to, and the calibration sets afterwards. */
  function CalibSpec(calibs: map<string, CalibSet>, nw: CalibSet): Result<(string, map<string, CalibSet>)> {
    if "aa" !in calibs then Ok(("aa", calibs["aa" := nw]))
    else
      var dflt := calibs["aa"];
      if !HasCbKeys(dflt) then Err("KeyError")
      else
        var left := Differing(dflt, nw);
        if |left| == 0 then Ok(("aa", calibs))
        else if |left| == 1 then
          if "sci" !in left then Err("AssertionError")
          else if |left["sci"]| == 0 then Err("IndexError: list index out of range")
          else if left["sci"][0] in dflt["sci"] then Ok(("aa", calibs))
          else Ok(("aa", calibs["aa" := dflt["sci" := dflt["sci"] + left["sci"]]]))
        else CalibFrom(calibs, dflt["cent"], left, 1)
  }

  /** The loop from candidate `k0` on stops at the first candidate `k` it
      does not pass over: it raises a KeyError there when `k` is used and
      its set matches, and otherwise stores the set under `k` when unused,
      or, with every name used, stops on the last one and stores nothing. */
  lemma {:induction false} CalibFromFirstFit(calibs: map<string, CalibSet>, dcent: seq<string>, left: CalibSet, k0: nat)
    requires 1 <= k0 < 104 && forall j :: 1 <= j < k0 ==> PassedCalib(calibs, dcent, left, j)
    ensures var r := CalibFrom(calibs, dcent, left, k0);
      exists k :: k0 <= k < 104 && (forall j :: 1 <= j < k ==> PassedCalib(calibs, dcent, left, j)) &&
        (r.Err? ==> r.msg == "KeyError" && CalibName(k) in calibs && StaleRaises(calibs[CalibName(k)], dcent, left)) &&
        (r.Ok? ==>
          r.value.0 == CalibName(k) &&
          (CalibName(k) !in calibs ==> r.value.1 == calibs[CalibName(k) := left]) &&
          (CalibName(k) in calibs ==> k == 103 && r.value.1 == calibs))
    decreases 104 - k0
  {
    if PassedCalib(calibs, dcent, left, k0) && k0 < 103 {
      CalibFromFirstFit(calibs, dcent, left, k0 + 1);
    } else {
      assert CalibName(k0) == CalibName(k0);
    }
  }

  /** Candidates the loop passes over can be skipped. */
  lemma {:induction false} CalibFromSkip(calibs: map<string, CalibSet>, dcent: seq<string>, left: CalibSet, k0: nat, k: nat)
    requires 1 <= k0 <= k < 104
    requires forall j :: k0 <= j < k ==> PassedCalib(calibs, dcent, left, j)
    ensures CalibFrom(calibs, dcent, left, k0) == CalibFrom(calibs, dcent, left, k)
    decreases k - k0
  {
    if k0 < k {
      assert PassedCalib(calibs, dcent, left, k0);
      CalibFromSkip(calibs, dcent, left, k0 + 1, k);
    }
  }

  /** A first exposure founds the default set `aa`. */
  lemma CalibFirst(calibs: map<string, CalibSet>, nw: CalibSet)
    requires "aa" !in calibs
    ensures CalibSpec(calibs, nw) == Ok(("aa", calibs["aa" := nw]))
  {
  }

  /** When the sets differ in more than the science frames, the search runs
      from `ab`: the differing lists alone are stored under the first unused
      name, unless a used name before it matches with the science frames
      popped, which raises a KeyError. */
  lemma CalibNewSet(calibs: map<string, CalibSet>, nw: CalibSet)
    requires "aa" in calibs && HasCbKeys(calibs["aa"])
    requires |Differing(calibs["aa"], nw)| >= 2
    ensures var left, dcent, r := Differing(calibs["aa"], nw), calibs["aa"]["cent"], CalibSpec(calibs, nw);
      exists k :: 1 <= k < 104 && (forall j :: 1 <= j < k ==> PassedCalib(calibs, dcent, left, j)) &&
        (r.Err? ==> r.msg == "KeyError" && CalibName(k) in calibs && StaleRaises(calibs[CalibName(k)], dcent, left)) &&
        (r.Ok? ==>
          r.value.0 == CalibName(k) &&
          (CalibName(k) !in calibs ==> r.value.1 == calibs[CalibName(k) := left]) &&
          (CalibName(k) in calibs ==> k == 103 && r.value.1 == calibs))
  {
    CalibFromFirstFit(calibs, calibs["aa"]["cent"], Differing(calibs["aa"], nw), 1);
  }

  /** With science frames among the differing lists the match test never
      raises a KeyError, and while some name after `aa` is unused the set
      is filed under the name returned. */
  lemma CalibSciFiled(calibs: map<string, CalibSet>, nw: CalibSet)
    requires "aa" in calibs && HasCbKeys(calibs["aa"])
    requires |Differing(calibs["aa"], nw)| >= 2 && "sci" in Differing(calibs["aa"], nw)
    ensures CalibSpec(calibs, nw).Ok?
    ensures (exists k :: 1 <= k < 104 && CalibName(k) !in calibs) ==>
      var (name, c2) := CalibSpec(calibs, nw).value;
      name !in calibs && c2 == calibs[name := Differing(calibs["aa"], nw)]
  {
    var left, dcent := Differing(calibs["aa"], nw), calibs["aa"]["cent"];
    CalibFromFirstFit(calibs, dcent, left, 1);
    var k :| 1 <= k < 104 && (forall j :: 1 <= j < k ==> PassedCalib(calibs, dcent, left, j)) &&
      CalibSpec(calibs, nw).value.0 == CalibName(k) &&
      (CalibName(k) !in calibs ==> CalibSpec(calibs, nw).value.1 == calibs[CalibName(k) := left]) &&
      (CalibName(k) in calibs ==> k == 103 && CalibSpec(calibs, nw).value.1 == calibs);
    if k' :| 1 <= k' < 104 && CalibName(k') !in calibs {
      if CalibName(k) in calibs {
        assert PassedCalib(calibs, dcent, left, k');
      }
    }
  }

  /** A set whose every list equals the default set's keeps `aa` and
      changes nothing. */
  lemma CalibSame(calibs: map<string, CalibSet>, nw: CalibSet)
    requires "aa" in calibs && HasCbKeys(calibs["aa"])
    requires forall k :: k in nw ==> k in calibs["aa"] && calibs["aa"][k] == nw[k]
    ensures CalibSpec(calibs, nw) == Ok(("aa", calibs))
  {
    var left := Differing(calibs["aa"], nw);
    assert left.Keys == {};
  }

  /** A set that differs from the default set only in its science frames
      joins `aa`: its science names are appended when the first of them is
      new to `aa`, and nothing changes otherwise. */
  lemma CalibSciOnly(calibs: map<string, CalibSet>, nw: CalibSet)
    requires "aa" in calibs && HasCbKeys(calibs["aa"]) && "sci" in nw
    requires forall k :: k in nw && k != "sci" ==> k in calibs["aa"] && calibs["aa"][k] == nw[k]
    requires calibs["aa"]["sci"] != nw["sci"] && |nw["sci"]| > 0
    ensures var dflt, sci := calibs["aa"], nw["sci"];
      CalibSpec(calibs, nw) ==
        if sci[0] in dflt["sci"] then Ok(("aa", calibs))
        else Ok(("aa", calibs["aa" := dflt["sci" := dflt["sci"] + sci]]))
  {
    var left := Differing(calibs["aa"], nw);
    assert left.Keys == {"sci"};
    assert |left| == |left.Keys|;
  }

  /** No calibration set other than `aa` is ever modified, and at most the
      name returned is added. */
  lemma CalibKeepsOthers(calibs: map<string, CalibSet>, nw: CalibSet)
    requires CalibSpec(calibs, nw).Ok?
    ensures var (name, c2) := CalibSpec(calibs, nw).value;
      (forall n :: n in calibs && n != "aa" ==> n in c2 && c2[n] == calibs[n]) &&
      c2.Keys == calibs.Keys + {name}
  {
    if "aa" in calibs && HasCbKeys(calibs["aa"]) {
      var left := Differing(calibs["aa"], nw);
      if |left| >= 2 {
        CalibFromFirstFit(calibs, calibs["aa"]["cent"], left, 1);
      }
    }
  }

  /** The default set `aa` only gains science frames, at the end of its list. */
  lemma CalibKeepsDefault(calibs: map<string, CalibSet>, nw: CalibSet)
    requires CalibSpec(calibs, nw).Ok? && "aa" in calibs
    ensures var (name, c2) := CalibSpec(calibs, nw).value;
      "aa" in c2 && c2["aa"].Keys == calibs["aa"].Keys &&
      (forall k :: k in calibs["aa"] && k != "sci" ==> c2["aa"][k] == calibs["aa"][k]) &&
      calibs["aa"]["sci"] <= c2["aa"]["sci"]
  {
    var left := Differing(calibs["aa"], nw);
    if |left| >= 2 {
      CalibFromFirstFit(calibs, calibs["aa"]["cent"], left, 1);
      var (name, c2) := CalibSpec(calibs, nw).value;
      assert name != "aa";
      assert c2["aa"] == calibs["aa"];
    }
  }

  /** The same exposure filed again after its differing lists were stored
      under a new name: when those lists hold no science frames and all
      equal the default set's `cent` list, the stored copy matches and the
      call raises a KeyError; otherwise the copy is passed over, so a call
      that succeeds never returns that name again (short of the last name,
      `dz`), but files yet another copy. */
  lemma CalibRefile(calibs: map<string, CalibSet>, nw: CalibSet)
    requires "aa" in calibs && HasCbKeys(calibs["aa"]) && |Differing(calibs["aa"], nw)| >= 2
    requires CalibSpec(calibs, nw).Ok? && CalibSpec(calibs, nw).value.0 !in calibs
    ensures var (name, c2) := CalibSpec(calibs, nw).value;
      var left := Differing(calibs["aa"], nw);
      (("sci" !in left && forall key :: key in left ==> left[key] == calibs["aa"]["cent"]) ==>
        CalibSpec(c2, nw) == Err("KeyError")) &&
      (CalibSpec(c2, nw).Ok? ==> CalibSpec(c2, nw).value.0 != name || name == CalibName(103))
  {
    var left, dcent := Differing(calibs["aa"], nw), calibs["aa"]["cent"];
    CalibFromFirstFit(calibs, dcent, left, 1);
    var (name, c2) := CalibSpec(calibs, nw).value;
    var k :| 1 <= k < 104 && name == CalibName(k) && (forall j :: 1 <= j < k ==> PassedCalib(calibs, dcent, left, j));
    assert c2 == calibs[name := left] && c2["aa"] == calibs["aa"];
    assert CalibSpec(c2, nw) == CalibFrom(c2, dcent, left, 1);
    CalibRefileFrom(calibs, dcent, left, k);
  }

  /** `CalibRefile` on the search loop, once the set was stored under the
      unused candidate `k` that every earlier candidate passes over. */
  lemma CalibRefileFrom(calibs: map<string, CalibSet>, dcent: seq<string>, left: CalibSet, k: nat)
    requires 1 <= k < 104 && CalibName(k) !in calibs
    requires forall j :: 1 <= j < k ==> PassedCalib(calibs, dcent, left, j)
    ensures var c2 := calibs[CalibName(k) := left];
      (StaleRaises(left, dcent, left) ==> CalibFrom(c2, dcent, left, 1) == Err("KeyError")) &&
      (CalibFrom(c2, dcent, left, 1).Ok? ==> CalibFrom(c2, dcent, left, 1).value.0 != CalibName(k) || k == 103)
  {
    var name := CalibName(k);
    var c2 := calibs[name := left];
    forall j | 1 <= j < k ensures PassedCalib(c2, dcent, left, j) {
      assert PassedCalib(calibs, dcent, left, j);
      if CalibName(j) == name { CalibNameInjective(j, k); }
    }
    CalibFromSkip(c2, dcent, left, 1, k);
    if !StaleRaises(left, dcent, left) && k < 103 {
      CalibFromFirstFit(c2, dcent, left, k + 1);
      var r := CalibFrom(c2, dcent, left, k + 1);
      if r.Ok? {
        var k' :| k + 1 <= k' < 104 && r.value.0 == CalibName(k');
        if r.value.0 == name { CalibNameInjective(k, k'); }
      }
    }
  }

  /** The match test reads the default set's `cent` list: with
      `aa = {arcs: [a], bias: [b], trace: [], flat: [], sci: [s], cent: [c]}`,
      an exposure whose arcs and bias frames are both `[c]` is filed as
      `ab`, and the same exposure a second time raises a KeyError. */
  lemma CalibStaleKeyError()
    ensures var aa: CalibSet := map["arcs" := ["a"], "bias" := ["b"], "trace" := [], "flat" := [], "sci" := ["s"], "cent" := ["c"]];
      var nw: CalibSet := map["arcs" := ["c"], "bias" := ["c"], "trace" := [], "flat" := [], "sci" := ["s"], "cent" := ["c"]];
      var ab: CalibSet := map["arcs" := ["c"], "bias" := ["c"]];
      CalibSpec(map["aa" := aa], nw) == Ok(("ab", map["aa" := aa, "ab" := ab])) &&
      CalibSpec(map["aa" := aa, "ab" := ab], nw) == Err("KeyError")
  {
    var aa: CalibSet := map["arcs" := ["a"], "bias" := ["b"], "trace" := [], "flat" := [], "sci" := ["s"], "cent" := ["c"]];
    var nw: CalibSet := map["arcs" := ["c"], "bias" := ["c"], "trace" := [], "flat" := [], "sci" := ["s"], "cent" := ["c"]];
    var ab: CalibSet := map["arcs" := ["c"], "bias" := ["c"]];
    assert Differing(aa, nw).Keys == {"arcs", "bias"};
    assert Differing(aa, nw) == ab;
    assert |ab| == |ab.Keys| == 2;
    assert CalibName(1) == "ab";
  }

  // ---------------------------------------------------------------- instr_setup

  /** `chk_key`: a stored float is compared with `np.isclose`, which raises a
      TypeError on a string or a dict; any other value with `==`, which is
      false against a dict. */
  function ChkKey(v1: Scalar, v2: Field): Result<bool> {
    if v1.SFloat? then
      if v2.Leaf? && !v2.v.SStr? then Ok(Close(v1.x, Num(v2.v))) else Err("TypeError")
    else if v2.Leaf? then Ok(PyEq(v1, v2.v))
    else Ok(false)
  }

  /** The comparison of one stored configuration field with the new dict:
      a KeyError when the new dict lacks the key; a stored dict is compared
      key by key, one level deep (an empty one never looks at the new dict),
      and subscripting a plain value of the new dict is a TypeError. Which
      kind of error is named is not tracked when a sub-dict holds both: the
      source stops at the first failing key in insertion order, the model
      names a missing key first; either way the call ends in an exception. */
  function FieldMatch(stored: Field, key: string, cdict: ConfigDict): Result<bool> {
    if stored.Leaf? then
      if key !in cdict then Err("KeyError") else ChkKey(stored.v, cdict[key])
    else
      var m := stored.m;
      if |m| == 0 then Ok(true)
      else if key !in cdict then Err("KeyError")
      else if !cdict[key].Sub? then Err("TypeError")
      else
        var n := cdict[key].m;
        if exists ik :: ik in m && ik !in n then Err("KeyError")
        else if exists ik :: ik in m && ChkKey(m[ik], Leaf(n[ik])).Err? then Err("TypeError")
        else Ok(forall ik :: ik in m ==> ChkKey(m[ik], Leaf(n[ik])) == Ok(true))
  }

  /** A stored configuration matches the new one when every stored field
      does; all fields are compared, so any failing comparison fails the call. */
  function ConfigMatch(stored: ConfigDict, cdict: ConfigDict): Result<bool> {
    if exists k :: k in stored && FieldMatch(stored[k], k, cdict).Err? then Err("KeyError or TypeError")
    else Ok(forall k :: k in stored ==> FieldMatch(stored[k], k, cdict) == Ok(true))
  }

  /** A configuration matches itself. */
  lemma ConfigMatchSelf(c: ConfigDict)
    ensures ConfigMatch(c, c) == Ok(true)
  {
    forall k | k in c ensures FieldMatch(c[k], k, c) == Ok(true) {
      if c[k].Sub? {
        var m := c[k].m;
        forall ik | ik in m ensures ChkKey(m[ik], Leaf(m[ik])) == Ok(true) {
          PyEqReflexive(m[ik]);
        }
      } else {
        PyEqReflexive(c[k].v);
      }
    }
  }

  /** An entry of the setup dictionary as a value: the configuration stored
      under `--`, the detector dicts and the calibration sets. */
  datatype Entry = Entry(base: ConfigDict, dets: map<string, DetDict>, calibs: map<string, CalibSet>)

  /** The keys are listed once each, in insertion order, as a Python dict keeps them. */
  predicate Ordered<V>(order: seq<string>, m: map<string, V>) {
    NoDup(order) && (forall k :: k in m ==> k in order) && (forall i :: 0 <= i < |order| ==> order[i] in m)
  }

  /** The loop over the existing configurations from position `k`: the first
      whose stored configuration matches. */
  function FirstMatch(order: seq<string>, entries: map<string, Entry>, cdict: ConfigDict, k: nat): (r: Result<Option<string>>)
    requires forall i :: 0 <= i < |order| ==> order[i] in entries
    ensures r.Ok? && r.value.Some? ==> r.value.value in order
    decreases |order| - k
  {
    if k >= |order| then Ok(None)
    else
      match ConfigMatch(entries[order[k]].base, cdict)
      case Err(e) => Err(e)
      case Ok(m) => if m then Ok(Some(order[k])) else FirstMatch(order, entries, cdict, k + 1)
  }

  /** `string.ascii_uppercase` */
  function Letter(i: nat): char
    requires i < 26
  {
    ('A' as int + i) as char
  }

  /** The first `n` capital letters. */
  function Letters(n: nat): (s: string)
    requires n <= 26
    ensures |s| == n && forall i :: 0 <= i < n ==> s[i] == Letter(i)
  {
    if n == 0 then [] else Letters(n - 1) + [Letter(n - 1)]
  }

  const AlphabetSize: nat := 26
  const Upper: string := Letters(AlphabetSize)

  /** `s.index(sub)` from position `k`: the first occurrence of a substring. */
  function FindSub(s: string, sub: string, k: nat): Option<nat>
    decreases |s| - k
  {
    if k + |sub| > |s| then None
    else if s[k..k + |sub|] == sub then Some(k)
    else FindSub(s, sub, k + 1)
  }

  /** The letter after `maxs` in the alphabet, as `cfig_str[cfig_str.index(maxs)+1]`:
      a ValueError when `maxs` is not a run of the alphabet, an IndexError after `Z`. */
  function NextLetter(maxs: string): Result<string> {
    match FindSub(Upper, maxs, 0)
    case None => Err("ValueError: substring not found")
    case Some(i) => if i + 1 < 26 then Ok([Upper[i + 1]]) else Err("IndexError: string index out of range")
  }

  /** The configuration `instr_setup` files the exposure under, and whether it
      is new: the first one name on an empty dictionary, otherwise the first
      existing one that matches, otherwise (unless it must exist) the letter
      after the largest key. */
  function ChooseConfig(order: seq<string>, entries: map<string, Entry>, cdict: ConfigDict,
                        mustExist: bool, configName: Option<string>): Result<(string, bool)>
    requires Ordered(order, entries)
  {
    if |order| == 0 then Ok((if configName.Some? then configName.value else "A", true))
    else
      match FirstMatch(order, entries, cdict, 0)
      case Err(e) => Err(e)
      case Ok(found) =>
        if found.Some? then Ok((found.value, false))
        else if mustExist then Err("This setup is not present in the setup_dict.")
        else
          match NextLetter(MaxStr(order))
          case Err(e) => Err(e)
          case Ok(letter) => Ok((letter, true))
  }

  /** The configurations before position `k` exist and do not match. */
  predicate NoMatchBefore(order: seq<string>, entries: map<string, Entry>, cdict: ConfigDict, k: nat)
    requires forall i :: 0 <= i < |order| ==> order[i] in entries
  {
    k <= |order| && forall j :: 0 <= j < k ==> ConfigMatch(entries[order[j]].base, cdict) == Ok(false)
  }

  /** The configuration reused is the first matching one in insertion order;
      with none found, none matches. */
  lemma {:induction false} FirstMatchSpec(order: seq<string>, entries: map<string, Entry>, cdict: ConfigDict, k0: nat)
    requires forall i :: 0 <= i < |order| ==> order[i] in entries
    requires NoMatchBefore(order, entries, cdict, k0)
    requires FirstMatch(order, entries, cdict, k0).Ok?
    ensures var found := FirstMatch(order, entries, cdict, k0).value;
      (found.None? ==> NoMatchBefore(order, entries, cdict, |order|)) &&
      (found.Some? ==>
         exists k :: k0 <= k < |order| && found.value == order[k] &&
           NoMatchBefore(order, entries, cdict, k) && ConfigMatch(entries[order[k]].base, cdict) == Ok(true))
    decreases |order| - k0
  {
    if k0 < |order| && ConfigMatch(entries[order[k0]].base, cdict) == Ok(false) {
      FirstMatchSpec(order, entries, cdict, k0 + 1);
    }
  }

  /** `FindSub` finds an occurrence. */
  lemma {:induction false} FindSubOccurs(s: string, sub: string, k: nat)
    requires FindSub(s, sub, k).Some?
    ensures var i := FindSub(s, sub, k).value; k <= i && i + |sub| <= |s| && s[i..i + |sub|] == sub
    decreases |s| - k
  {
    if !(k + |sub| > |s|) && s[k..k + |sub|] != sub {
      FindSubOccurs(s, sub, k + 1);
    }
  }

  /** The new configuration letter sorts after every existing key, so it is
      never one of them: a new configuration never replaces an old one. */
  lemma NextLetterFresh(order: seq<string>)
    requires |order| > 0 && NextLetter(MaxStr(order)).Ok?
    ensures NextLetter(MaxStr(order)).value !in order
  {
    MaxStrIsMax(order);
    NextLetterAbove(order, MaxStr(order));
  }

  /** The letter after a run of the alphabet sorts after anything up to the run. */
  lemma NextLetterAbove(order: seq<string>, m: string)
    requires forall k :: 0 <= k < |order| ==> StrLe(order[k], m)
    requires NextLetter(m).Ok?
    ensures NextLetter(m).value !in order
  {
    FindSubOccurs(Upper, m, 0);
    var i := FindSub(Upper, m, 0).value;
    assert NextLetter(m) == Ok([Upper[i + 1]]);
    LaterLetterAfter(m, i);
  }

  /** The letter following a run of the alphabet sorts after the run. */
  lemma LaterLetterAfter(m: string, i: nat)
    requires i + 1 < 26 && i + |m| <= 26 && Upper[i..i + |m|] == m
    ensures !StrLe([Upper[i + 1]], m)
  {
    if |m| > 0 {
      assert m[0] == Upper[i];
      assert Upper[i] == Letter(i) && Upper[i + 1] == Letter(i + 1);
    }
  }

  /** A single letter before `Z` is followed by the next letter. */
  lemma NextLetterSucc(c: char)
    requires 'A' <= c < 'Z'
    ensures NextLetter([c]) == Ok([(c as int + 1) as char])
  {
    var i := c as int - 'A' as int;
    assert Upper[i] == c && Upper[i..i + 1] == [c];
    forall j | 0 <= j < i ensures !OccursAt(Upper, [c], j) {
      assert Upper[j..j + 1] == [Upper[j]];
    }
    FindSubFirst(Upper, [c], 0, i);
  }

  /** With no occurrence between `k` and `i`, the search from `k` stops at `i`. */
  lemma {:induction false} FindSubFirst(s: string, sub: string, k: nat, i: nat)
    requires k <= i && OccursAt(s, sub, i)
    requires forall j :: k <= j < i ==> !OccursAt(s, sub, j)
    ensures FindSub(s, sub, k) == Some(i)
    decreases i - k
  {
    if k < i {
      assert !OccursAt(s, sub, k);
      FindSubFirst(s, sub, k + 1, i);
    } else {
      assert s[k..k + |sub|] == sub;
    }
  }

  // ---------------------------------------------------------------- one configuration

  /** One entry of the setup dictionary, `setup_dict[setup]`: the configuration
      it was created for (under `--`), its detector dicts (under `01`, `02`, …)
      and its calibration sets (under `aa`, `ab`, …). The three kinds of keys
      never collide, so the one Python dict is kept as three maps. */
  class InstrConfig {
    const base: ConfigDict
    var dets: map<string, DetDict>
    var calibs: map<string, CalibSet>
    /** The configuration name the entry is filed under. */
    ghost const name: string

    constructor (cdict: ConfigDict, ghost name: string)
      ensures base == cdict && dets == map[] && calibs == map[] && this.name == name
    {
      base, dets, calibs, this.name := cdict, map[], map[], name;
    }

    /** `det_setup` on this entry. */
    method DetSetup(ddict: DetDict) returns (r: Result<string>)
      modifies this`dets
      ensures var spec := DetSpec(old(dets), ddict);
        (r.Ok? <==> spec.Ok?) &&
        (r.Ok? ==> r.value == spec.value.0 && dets == spec.value.1) &&
        (r.Err? ==> r.msg == spec.msg && dets == old(dets))
    {
      var d0 := dets;
      var k := 0;
      while true
        invariant 0 <= k < 99 && dets == d0
        invariant DetSpec(d0, ddict) == DetFrom(d0, ddict, k)
        decreases 99 - k
      {
        var key := DetKey(k);
        if key !in d0 {
          dets := d0[key := ddict];
          return Ok(key);
        }
        var stored := d0[key];
        var mtch := DetMatch(stored, ddict);
        if mtch.Err? {
          return Err(mtch.msg);
        }
        if mtch.value || k == 98 {
          return Ok(key);
        }
        k := k + 1;
      }
    }

    /** `calib_set` on this entry; the match test of the search loop is the
        predicate `StaleMatch` of the stored set. */
    method CalibSet(e: Exposure) returns (r: Result<string>)
      modifies this`calibs
      ensures var spec := CalibSpec(old(calibs), NewCbset(e));
        (r.Ok? <==> spec.Ok?) &&
        (r.Ok? ==> r.value == spec.value.0 && calibs == spec.value.1) &&
        (r.Err? ==> r.msg == spec.msg && calibs == old(calibs))
    {
      var nw := BuildCbset(e);
      if "aa" !in calibs {
        calibs := calibs["aa" := nw];
        return Ok("aa");
      }
      var dflt := calibs["aa"];
      if !HasCbKeys(dflt) {
        return Err("KeyError");
      }
      var left := Differing(dflt, nw);
      if |left| == 0 {
        return Ok("aa");
      }
      if |left| == 1 {
        if "sci" !in left {
          return Err("AssertionError");
        }
        if |left["sci"]| == 0 {
          return Err("IndexError: list index out of range");
        }
        if left["sci"][0] !in dflt["sci"] {
          calibs := calibs["aa" := dflt["sci" := dflt["sci"] + left["sci"]]];
        }
        return Ok("aa");
      }
      var dcent := dflt["cent"];
      var c0 := calibs;
      var k := 1;
      while true
        invariant 1 <= k < 104 && calibs == c0
        invariant CalibSpec(c0, nw) == CalibFrom(c0, dcent, left, k)
        decreases 104 - k
      {
        var name := CalibName(k);
        if name !in c0 {
          calibs := c0[name := left];
          return Ok(name);
        }
        var mtch := StaleMatch(c0[name], dcent, left);
        if mtch && "sci" !in left {
          return Err("KeyError");
        }
        if k == 103 {
          return Ok(name);
        }
        k := k + 1;
      }
    }

    /** The detector and calibration steps of `instr_setup` on this entry,
        filed under configuration `key`. */
    method Step(key: string, ddict: DetDict, e: Exposure, skipCset: bool) returns (r: Result<string>)
      modifies this`dets, this`calibs
      ensures (r, Entry(base, dets, calibs)) == EntryStep(key, Entry(base, old(dets), old(calibs)), ddict, NewCbset(e), skipCset)
    {
      var d := DetSetup(ddict);
      if d.Err? {
        return Err(d.msg);
      }
      if skipCset {
        return Ok(SetupId(key, d.value, "--"));
      }
      var cb := CalibSet(e);
      if cb.Err? {
        return Err(cb.msg);
      }
      return Ok(SetupId(key, d.value, cb.value));
    }
  }

  // ---------------------------------------------------------------- instr_setup

  /** The header values of an exposure's first arc frame that `instr_setup` reads. */
  datatype ArcHeader = ArcHeader(dispname: Scalar, dispangle: Scalar, dichroic: Scalar,
                                 decker: Scalar, slitwid: Scalar, slitlen: Scalar, binning: Scalar)

  /** The configuration dict: disperser and slit one level deep, the dichroic flat. */
  function ConfigOf(h: ArcHeader): ConfigDict {
    map["disperser" := Sub(map["name" := h.dispname, "angle" := h.dispangle]),
        "dichroic" := Leaf(h.dichroic),
        "slit" := Sub(map["decker" := h.decker, "slitwid" := h.slitwid, "slitlen" := h.slitlen])]
  }

  /** The detector dict: binning, detector number and amplifier count. */
  function DetDictOf(binning: Scalar, det: int, namp: Scalar): DetDict {
    map["binning" := binning, "det" := SInt(det), "namp" := namp]
  }

  /** Each configuration value of `a` compares with `b`'s without raising. */
  predicate Comparable(a: ArcHeader, b: ArcHeader) {
    ChkKey(a.dispname, Leaf(b.dispname)).Ok? && ChkKey(a.dispangle, Leaf(b.dispangle)).Ok? &&
    ChkKey(a.dichroic, Leaf(b.dichroic)).Ok? && ChkKey(a.decker, Leaf(b.decker)).Ok? &&
    ChkKey(a.slitwid, Leaf(b.slitwid)).Ok? && ChkKey(a.slitlen, Leaf(b.slitlen)).Ok?
  }

  /** Each configuration value of `a` agrees with `b`'s. */
  predicate Agree(a: ArcHeader, b: ArcHeader) {
    ChkKey(a.dispname, Leaf(b.dispname)) == Ok(true) && ChkKey(a.dispangle, Leaf(b.dispangle)) == Ok(true) &&
    ChkKey(a.dichroic, Leaf(b.dichroic)) == Ok(true) && ChkKey(a.decker, Leaf(b.decker)) == Ok(true) &&
    ChkKey(a.slitwid, Leaf(b.slitwid)) == Ok(true) && ChkKey(a.slitlen, Leaf(b.slitlen)) == Ok(true)
  }

  /** Two exposures share a configuration exactly when their disperser,
      dichroic and slit values agree one by one; the comparison raises
      exactly when one of them cannot be compared. The binning plays no part. */
  lemma ConfigOfMatch(a: ArcHeader, b: ArcHeader)
    ensures ConfigMatch(ConfigOf(a), ConfigOf(b)).Ok? <==> Comparable(a, b)
    ensures Comparable(a, b) ==> ConfigMatch(ConfigOf(a), ConfigOf(b)) == Ok(Agree(a, b))
  {
    var ca, cb := ConfigOf(a), ConfigOf(b);
    DisperserMatch(a, b);
    SlitMatch(a, b);
    assert FieldMatch(ca["dichroic"], "dichroic", cb) == ChkKey(a.dichroic, Leaf(b.dichroic));
    ConfigMatchFields(ca, cb, "disperser", "dichroic", "slit");
  }

  /** A configuration of three fields matches when each field does. */
  lemma ConfigMatchFields(stored: ConfigDict, cdict: ConfigDict, k1: string, k2: string, k3: string)
    requires stored.Keys == {k1, k2, k3}
    ensures var f1, f2, f3 := FieldMatch(stored[k1], k1, cdict), FieldMatch(stored[k2], k2, cdict),
                              FieldMatch(stored[k3], k3, cdict);
      (ConfigMatch(stored, cdict).Ok? <==> f1.Ok? && f2.Ok? && f3.Ok?) &&
      (ConfigMatch(stored, cdict).Ok? ==> ConfigMatch(stored, cdict).value == (f1 == Ok(true) && f2 == Ok(true) && f3 == Ok(true)))
  {
  }

  lemma DisperserMatch(a: ArcHeader, b: ArcHeader)
    ensures var f, x, y := FieldMatch(ConfigOf(a)["disperser"], "disperser", ConfigOf(b)),
                           ChkKey(a.dispname, Leaf(b.dispname)), ChkKey(a.dispangle, Leaf(b.dispangle));
      (f.Ok? <==> x.Ok? && y.Ok?) && (f.Ok? ==> f.value == (x == Ok(true) && y == Ok(true)))
  {
    var m := ConfigOf(a)["disperser"].m;
    assert m.Keys == {"name", "angle"};
  }

  lemma SlitMatch(a: ArcHeader, b: ArcHeader)
    ensures var f, x, y, z := FieldMatch(ConfigOf(a)["slit"], "slit", ConfigOf(b)),
                              ChkKey(a.decker, Leaf(b.decker)), ChkKey(a.slitwid, Leaf(b.slitwid)),
                              ChkKey(a.slitlen, Leaf(b.slitlen));
      (f.Ok? <==> x.Ok? && y.Ok? && z.Ok?) && (f.Ok? ==> f.value == (x == Ok(true) && y == Ok(true) && z == Ok(true)))
  {
    var m := ConfigOf(a)["slit"].m;
    assert m.Keys == {"decker", "slitwid", "slitlen"};
  }

  /** What `instr_setup` returns and leaves in the setup dictionary: the full
      setup ID or the error raised, the configuration names in insertion
      order and the entries. */
  datatype Outcome = Outcome(id: Result<string>, order: seq<string>, entries: map<string, Entry>)

  /** The full setup ID, as `A_01_aa`. */
  function SetupId(config: string, dkey: string, ckey: string): string {
    Join([config, dkey, ckey], '_')
  }

  /** The ID forced by the master-frame settings: the first character of the
      given setup, the two-digit detector number and the last two characters. */
  function ForcedId(input: string, det: int): Result<string> {
    if |input| == 0 then Err("IndexError: string index out of range")
    else Ok(SetupId(input[..1], FormatInt(det, 2), From(input, -2)))
  }

  /** The detector and calibration steps on the entry of configuration
      `key`: the setup ID or the error, and the entry afterwards. */
  function EntryStep(key: string, ent: Entry, ddict: DetDict, nw: CalibSet, skipCset: bool): (Result<string>, Entry) {
    match DetSpec(ent.dets, ddict)
    case Err(err) => (Err(err), ent)
    case Ok((dkey, dets2)) =>
      if skipCset then (Ok(SetupId(key, dkey, "--")), ent.(dets := dets2))
      else
        match CalibSpec(ent.calibs, nw)
        case Err(err) => (Err(err), ent.(dets := dets2))
        case Ok((ckey, calibs2)) => (Ok(SetupId(key, dkey, ckey)), Entry(ent.base, dets2, calibs2))
  }

  /** The detector and calibration steps on the chosen configuration `key`. */
  function StoreDetCalib(order: seq<string>, entries: map<string, Entry>, key: string,
                         nw: CalibSet, ddict: DetDict, skipCset: bool): Outcome
    requires key in entries
  {
    var (id, ent2) := EntryStep(key, entries[key], ddict, nw, skipCset);
    Outcome(id, order, entries[key := ent2])
  }

  /** `instr_setup`, with `nw` the calibration set `calib_set` builds from
      the exposure: with a forced setup the ID is built from it and nothing
      else happens; otherwise the configuration is chosen (and created when
      new), then the detector key and the calibration key are found on it.
      An error leaves what the earlier steps stored. */
  function InstrSpec(order: seq<string>, entries: map<string, Entry>, q: Request, nw: CalibSet): Outcome
    requires Ordered(order, entries)
  {
    if q.force.Some? then Outcome(ForcedId(q.force.value, q.det), order, entries)
    else if |q.e.arcs| == 0 then Outcome(Err("IndexError: index 0 is out of bounds"), order, entries)
    else
      match ChooseConfig(order, entries, q.cdict, q.mustExist, q.configName)
      case Err(err) => Outcome(Err(err), order, entries)
      case Ok((key, isNew)) =>
        var order1 := if key in entries then order else order + [key];
        var entries1 := if isNew then entries[key := Entry(q.cdict, map[], map[])] else entries;
        StoreDetCalib(order1, entries1, key, nw, q.ddict, q.skipCset)
  }

  /** One call of `instr_setup` on exposure `e`, with the dicts it builds
      from the header of the exposure's first arc frame, `cdict` and `ddict`;
      `force` holds the setup given by the master-frame settings when they
      force one. */
  datatype Request = Request(cdict: ConfigDict, ddict: DetDict, e: Exposure, det: int,
                             mustExist: bool, skipCset: bool, configName: Option<string>, force: Option<string>)

  /** The request `instr_setup` makes of an exposure, its first arc frame's
      header and the detector's amplifier count. */
  function RequestOf(e: Exposure, arc: ArcHeader, det: int, namp: Scalar, mustExist: bool, skipCset: bool,
                     configName: Option<string>, force: Option<string>): Request {
    Request(ConfigOf(arc), DetDictOf(arc.binning, det, namp), e, det, mustExist, skipCset, configName, force)
  }

  /** The configuration is reused when an existing one matches (the first
      such in insertion order), and is new otherwise, under a name not used
      before. */
  lemma ChooseConfigSpec(order: seq<string>, entries: map<string, Entry>, cdict: ConfigDict,
                         mustExist: bool, configName: Option<string>)
    requires Ordered(order, entries) && ChooseConfig(order, entries, cdict, mustExist, configName).Ok?
    ensures var (key, isNew) := ChooseConfig(order, entries, cdict, mustExist, configName).value;
      (isNew <==> key !in entries) &&
      (!isNew ==> ConfigMatch(entries[key].base, cdict) == Ok(true) &&
                  exists k :: 0 <= k < |order| && order[k] == key && NoMatchBefore(order, entries, cdict, k)) &&
      (isNew ==> !mustExist || |order| == 0) &&
      (isNew ==> NoMatchBefore(order, entries, cdict, |order|))
  {
    if |order| > 0 {
      FirstMatchSpec(order, entries, cdict, 0);
      if FirstMatch(order, entries, cdict, 0).value.None? {
        NextLetterFresh(order);
      }
    }
  }

  /** Once the configuration is chosen, the rest of `instr_setup` is the
      detector and calibration steps on it. */
  lemma InstrSpecStore(order: seq<string>, entries: map<string, Entry>, q: Request, nw: CalibSet, key: string, isNew: bool)
    requires Ordered(order, entries) && q.force.None? && |q.e.arcs| > 0
    requires ChooseConfig(order, entries, q.cdict, q.mustExist, q.configName) == Ok((key, isNew))
    ensures isNew <==> key !in entries
    ensures InstrSpec(order, entries, q, nw) ==
      StoreDetCalib(if isNew then order + [key] else order,
                    if isNew then entries[key := Entry(q.cdict, map[], map[])] else entries,
                    key, nw, q.ddict, q.skipCset)
  {
    ChooseConfigSpec(order, entries, q.cdict, q.mustExist, q.configName);
  }

  /** `instr_setup` once the configuration is chosen and placed and the
      detector and calibration steps are done on its entry. */
  lemma FiledOutcome(order: seq<string>, entries: map<string, Entry>, q: Request, nw: CalibSet,
                     key: string, isNew: bool, order1: seq<string>, entries1: map<string, Entry>,
                     r: Result<string>, ent: Entry)
    requires Ordered(order, entries) && q.force.None? && |q.e.arcs| > 0
    requires ChooseConfig(order, entries, q.cdict, q.mustExist, q.configName) == Ok((key, isNew))
    requires order1 == (if isNew then order + [key] else order)
    requires entries1 == (if isNew then entries[key := Entry(q.cdict, map[], map[])] else entries)
    requires key in entries1 && (r, ent) == EntryStep(key, entries1[key], q.ddict, nw, q.skipCset)
    ensures InstrSpec(order, entries, q, nw) == Outcome(r, order1, entries1[key := ent])
  {
    InstrSpecStore(order, entries, q, nw, key, isNew);
  }

  /** `instr_setup` touches only the chosen configuration: a new one is
      appended to the insertion order with its configuration dict, an
      existing one keeps its configuration dict, every other entry is left
      as it was, and the dictionary stays well ordered. */
  lemma InstrSpecKeeps(order: seq<string>, entries: map<string, Entry>, q: Request, nw: CalibSet, key: string, isNew: bool)
    requires Ordered(order, entries) && q.force.None? && |q.e.arcs| > 0
    requires ChooseConfig(order, entries, q.cdict, q.mustExist, q.configName) == Ok((key, isNew))
    ensures isNew <==> key !in entries
    ensures InstrSpec(order, entries, q, nw).order == (if isNew then order + [key] else order)
    ensures InstrSpec(order, entries, q, nw).entries.Keys == entries.Keys + {key}
    ensures forall n :: n in entries && n != key ==> InstrSpec(order, entries, q, nw).entries[n] == entries[n]
    ensures InstrSpec(order, entries, q, nw).entries[key].base == (if isNew then q.cdict else entries[key].base)
    ensures Ordered(InstrSpec(order, entries, q, nw).order, InstrSpec(order, entries, q, nw).entries)
  {
    InstrSpecStore(order, entries, q, nw, key, isNew);
    var order1 := if isNew then order + [key] else order;
    var entries1 := if isNew then entries[key := Entry(q.cdict, map[], map[])] else entries;
    StoreKeeps(order1, entries1, key, nw, q.ddict, q.skipCset);
    KeepsOrdered(order, entries, key, isNew, StoreDetCalib(order1, entries1, key, nw, q.ddict, q.skipCset).entries);
  }

  /** Adding a new name at the end, or changing the entry of an existing
      name, keeps the insertion order. */
  lemma KeepsOrdered<V>(order: seq<string>, entries: map<string, V>, key: string, isNew: bool,
                        out: map<string, V>)
    requires Ordered(order, entries) && (isNew <==> key !in entries)
    requires out.Keys == entries.Keys + {key}
    ensures Ordered(if isNew then order + [key] else order, out)
  {
  }

  lemma StoreKeeps(order: seq<string>, entries: map<string, Entry>, key: string,
                   nw: CalibSet, ddict: DetDict, skipCset: bool)
    requires key in entries
    ensures var out := StoreDetCalib(order, entries, key, nw, ddict, skipCset);
      out.order == order && out.entries.Keys == entries.Keys &&
      (forall n :: n in entries && n != key ==> out.entries[n] == entries[n]) &&
      out.entries[key].base == entries[key].base
  {
  }

  /** Before a configuration is chosen an error changes nothing. */
  lemma InstrSpecEarlyErr(order: seq<string>, entries: map<string, Entry>, q: Request, nw: CalibSet)
    requires Ordered(order, entries)
    requires q.force.Some? || |q.e.arcs| == 0 || ChooseConfig(order, entries, q.cdict, q.mustExist, q.configName).Err?
    ensures var out := InstrSpec(order, entries, q, nw);
      out.order == order && out.entries == entries &&
      (q.force.None? ==> out.id.Err?) &&
      (q.force.Some? ==> out.id == ForcedId(q.force.value, q.det))
  {
  }

  lemma DigitsNoUnderscore(s: string)
    requires AllDigits(s)
    ensures '_' !in s
  {
  }

  /** The calibration key `calib_set` returns is `aa` or a later candidate. */
  lemma CalibKeyName(calibs: map<string, CalibSet>, nw: CalibSet)
    requires CalibSpec(calibs, nw).Ok?
    ensures exists k :: 0 <= k < 104 && CalibSpec(calibs, nw).value.0 == CalibName(k)
  {
    assert CalibName(0) == "aa";
    if "aa" in calibs && HasCbKeys(calibs["aa"]) && |Differing(calibs["aa"], nw)| >= 2 {
      CalibFromFirstFit(calibs, calibs["aa"]["cent"], Differing(calibs["aa"], nw), 1);
    }
  }

  lemma CalibNameNoUnderscore(k: nat)
    requires k < 104
    ensures '_' !in CalibName(k)
  {
    var n := CalibName(k);
    assert n[0] == "abcd"[k / 26];
    assert "abcd"[k / 26] in "abcd";
  }

  /** Detector keys are two digits, and the key found is in the table afterwards. */
  lemma DetKeyPlain(dets: map<string, DetDict>, ddict: DetDict)
    requires DetSpec(dets, ddict).Ok?
    ensures var (dkey, d2) := DetSpec(dets, ddict).value; '_' !in dkey && dkey in d2
  {
    DetSetupKeeps(dets, ddict);
    DetSetupFirstFit(dets, ddict);
    var dkey := DetSpec(dets, ddict).value.0;
    var kd :| 0 <= kd < 99 && dkey == DetKey(kd);
    DigitsNoUnderscore(dkey);
  }

  /** Calibration keys are two letters, and the key found is a set afterwards. */
  lemma CalibKeyPlain(calibs: map<string, CalibSet>, nw: CalibSet)
    requires CalibSpec(calibs, nw).Ok?
    ensures var (ckey, c2) := CalibSpec(calibs, nw).value; '_' !in ckey && ckey in c2
  {
    CalibKeepsOthers(calibs, nw);
    CalibKeyName(calibs, nw);
    var ckey := CalibSpec(calibs, nw).value.0;
    var kc :| 0 <= kc < 104 && ckey == CalibName(kc);
    CalibNameNoUnderscore(kc);
  }

  /** The detector and calibration steps succeed with the ID of the key each finds. */
  lemma StoreOk(order: seq<string>, entries: map<string, Entry>, key: string,
                nw: CalibSet, ddict: DetDict, skipCset: bool)
    requires key in entries
    requires StoreDetCalib(order, entries, key, nw, ddict, skipCset).id.Ok?
    ensures var ent, out := entries[key], StoreDetCalib(order, entries, key, nw, ddict, skipCset);
      DetSpec(ent.dets, ddict).Ok? && (!skipCset ==> CalibSpec(ent.calibs, nw).Ok?) &&
      var (dkey, dets2) := DetSpec(ent.dets, ddict).value;
      var ckey := if skipCset then "--" else CalibSpec(ent.calibs, nw).value.0;
      out.id.value == SetupId(key, dkey, ckey) && key in out.entries &&
      out.entries[key].dets == dets2 &&
      (!skipCset ==> out.entries[key].calibs == CalibSpec(ent.calibs, nw).value.1)
  {
  }

  /** The ID of the detector and calibration steps names a detector entry
      and a calibration set (or `--` when skipped) that the entry now holds,
      and splitting it on `_` gives the three parts back whenever the
      configuration name has no `_`. */
  lemma StoreId(order: seq<string>, entries: map<string, Entry>, key: string,
                nw: CalibSet, ddict: DetDict, skipCset: bool)
    requires key in entries && '_' !in key
    requires StoreDetCalib(order, entries, key, nw, ddict, skipCset).id.Ok?
    ensures var out := StoreDetCalib(order, entries, key, nw, ddict, skipCset);
      key in out.entries &&
      exists dkey, ckey :: out.id.value == SetupId(key, dkey, ckey) &&
        Split(out.id.value, '_') == [key, dkey, ckey] &&
        dkey in out.entries[key].dets &&
        (skipCset ==> ckey == "--") && (!skipCset ==> ckey in out.entries[key].calibs)
  {
    StoreParts(order, entries, key, nw, ddict, skipCset);
    var out := StoreDetCalib(order, entries, key, nw, ddict, skipCset);
    var dkey, ckey :| out.id.value == SetupId(key, dkey, ckey) && '_' !in dkey && '_' !in ckey &&
      dkey in out.entries[key].dets &&
      (skipCset ==> ckey == "--") && (!skipCset ==> ckey in out.entries[key].calibs);
    SplitJoin([key, dkey, ckey], '_');
  }

  /** The parts of the ID of the detector and calibration steps hold no `_`
      and name entries the configuration now holds. */
  lemma StoreParts(order: seq<string>, entries: map<string, Entry>, key: string,
                   nw: CalibSet, ddict: DetDict, skipCset: bool)
    requires key in entries
    requires StoreDetCalib(order, entries, key, nw, ddict, skipCset).id.Ok?
    ensures var out := StoreDetCalib(order, entries, key, nw, ddict, skipCset);
      key in out.entries &&
      exists dkey, ckey :: out.id.value == SetupId(key, dkey, ckey) && '_' !in dkey && '_' !in ckey &&
        dkey in out.entries[key].dets &&
        (skipCset ==> ckey == "--") && (!skipCset ==> ckey in out.entries[key].calibs)
  {
    StoreOk(order, entries, key, nw, ddict, skipCset);
    var ent := entries[key];
    DetKeyPlain(ent.dets, ddict);
    var dkey := DetSpec(ent.dets, ddict).value.0;
    var ckey := "--";
    if !skipCset {
      CalibKeyPlain(ent.calibs, nw);
      ckey := CalibSpec(ent.calibs, nw).value.0;
    }
    assert StoreDetCalib(order, entries, key, nw, ddict, skipCset).id.value == SetupId(key, dkey, ckey);
  }

  /** The setup ID names the chosen configuration, a detector entry and a
      calibration set (or `--`) that the dictionary now holds, and splits
      back into the three whenever the configuration name has no `_`. */
  lemma InstrSpecId(order: seq<string>, entries: map<string, Entry>, q: Request, nw: CalibSet, key: string, isNew: bool)
    requires Ordered(order, entries) && q.force.None? && |q.e.arcs| > 0 && '_' !in key
    requires ChooseConfig(order, entries, q.cdict, q.mustExist, q.configName) == Ok((key, isNew))
    requires InstrSpec(order, entries, q, nw).id.Ok?
    ensures var out := InstrSpec(order, entries, q, nw);
      key in out.entries &&
      exists dkey, ckey :: out.id.value == SetupId(key, dkey, ckey) &&
        Split(out.id.value, '_') == [key, dkey, ckey] &&
        dkey in out.entries[key].dets &&
        (q.skipCset ==> ckey == "--") && (!q.skipCset ==> ckey in out.entries[key].calibs)
  {
    InstrSpecStore(order, entries, q, nw, key, isNew);
    StoreId(if isNew then order + [key] else order,
            if isNew then entries[key := Entry(q.cdict, map[], map[])] else entries,
            key, nw, q.ddict, q.skipCset);
  }

  /** The search looks only at the stored configuration dicts. */
  lemma {:induction false} FirstMatchBases(order: seq<string>, e1: map<string, Entry>, e2: map<string, Entry>,
                                           cdict: ConfigDict, k: nat)
    requires forall i :: 0 <= i < |order| ==> order[i] in e1 && order[i] in e2 && e1[order[i]].base == e2[order[i]].base
    ensures FirstMatch(order, e1, cdict, k) == FirstMatch(order, e2, cdict, k)
    decreases |order| - k
  {
    if k < |order| {
      FirstMatchBases(order, e1, e2, cdict, k + 1);
    }
  }

  /** Configurations known not to match are passed over. */
  lemma {:induction false} FirstMatchSkip(order: seq<string>, entries: map<string, Entry>, cdict: ConfigDict, k: nat)
    requires forall i :: 0 <= i < |order| ==> order[i] in entries
    requires NoMatchBefore(order, entries, cdict, k)
    ensures FirstMatch(order, entries, cdict, 0) == FirstMatch(order, entries, cdict, k)
  {
    if k > 0 {
      FirstMatchSkip(order, entries, cdict, k - 1);
    }
  }

  /** Filing an exposure is stable: afterwards the same configuration dict
      selects the same configuration, now as an existing one, whether it was
      reused or created by the call. */
  lemma ChooseAgain(order: seq<string>, entries: map<string, Entry>, q: Request, nw: CalibSet, key: string, isNew: bool,
                    mustExist: bool, configName: Option<string>)
    requires Ordered(order, entries) && q.force.None? && |q.e.arcs| > 0
    requires ChooseConfig(order, entries, q.cdict, q.mustExist, q.configName) == Ok((key, isNew))
    ensures Ordered(InstrSpec(order, entries, q, nw).order, InstrSpec(order, entries, q, nw).entries)
    ensures var out := InstrSpec(order, entries, q, nw);
      ChooseConfig(out.order, out.entries, q.cdict, mustExist, configName) == Ok((key, false))
  {
    InstrSpecKeeps(order, entries, q, nw, key, isNew);
    var out := InstrSpec(order, entries, q, nw);
    Rechoose(order, entries, q.cdict, q.mustExist, q.configName, key, isNew, out.order, out.entries, mustExist, configName);
  }

  lemma Rechoose(order: seq<string>, entries: map<string, Entry>, cdict: ConfigDict, mustExist0: bool,
                 configName0: Option<string>, key: string, isNew: bool,
                 order2: seq<string>, entries2: map<string, Entry>, mustExist: bool, configName: Option<string>)
    requires Ordered(order, entries)
    requires ChooseConfig(order, entries, cdict, mustExist0, configName0) == Ok((key, isNew))
    requires order2 == (if isNew then order + [key] else order)
    requires entries2.Keys == entries.Keys + {key}
    requires forall n :: n in entries && n != key ==> entries2[n] == entries[n]
    requires entries2[key].base == (if isNew then cdict else entries[key].base)
    ensures Ordered(order2, entries2)
    ensures ChooseConfig(order2, entries2, cdict, mustExist, configName) == Ok((key, false))
  {
    ChooseConfigSpec(order, entries, cdict, mustExist0, configName0);
    if isNew {
      RechooseNew(order, entries, cdict, key, entries2, mustExist, configName);
    } else {
      RechooseOld(order, entries, cdict, key, entries2, mustExist, configName);
    }
  }

  lemma RechooseNew(order: seq<string>, entries: map<string, Entry>, cdict: ConfigDict, key: string,
                    entries2: map<string, Entry>, mustExist: bool, configName: Option<string>)
    requires Ordered(order, entries) && key !in entries && NoMatchBefore(order, entries, cdict, |order|)
    requires entries2.Keys == entries.Keys + {key} && entries2[key].base == cdict
    requires forall n :: n in entries && n != key ==> entries2[n] == entries[n]
    ensures Ordered(order + [key], entries2)
    ensures ChooseConfig(order + [key], entries2, cdict, mustExist, configName) == Ok((key, false))
  {
    KeepsOrdered(order, entries, key, true, entries2);
    NoMatchExtend(order, entries, cdict, key, entries2);
    ChooseLast(order + [key], entries2, cdict, key, mustExist, configName);
  }

  /** Adding a configuration leaves the earlier ones not matching. */
  lemma NoMatchExtend(order: seq<string>, entries: map<string, Entry>, cdict: ConfigDict, key: string,
                      entries2: map<string, Entry>)
    requires Ordered(order, entries) && key !in entries && NoMatchBefore(order, entries, cdict, |order|)
    requires entries2.Keys == entries.Keys + {key}
    requires forall n :: n in entries && n != key ==> entries2[n] == entries[n]
    ensures NoMatchBefore(order + [key], entries2, cdict, |order|)
  {
    var order2 := order + [key];
    forall j | 0 <= j < |order| ensures ConfigMatch(entries2[order2[j]].base, cdict) == Ok(false) {
      assert order2[j] == order[j] && order[j] in entries;
    }
  }

  /** When only the last configuration can match and it was created from
      `cdict`, the search picks it. */
  lemma ChooseLast(order: seq<string>, entries: map<string, Entry>, cdict: ConfigDict, key: string,
                   mustExist: bool, configName: Option<string>)
    requires Ordered(order, entries) && |order| > 0 && order[|order| - 1] == key && entries[key].base == cdict
    requires NoMatchBefore(order, entries, cdict, |order| - 1)
    ensures ChooseConfig(order, entries, cdict, mustExist, configName) == Ok((key, false))
  {
    FirstMatchSkip(order, entries, cdict, |order| - 1);
    ConfigMatchSelf(cdict);
    assert FirstMatch(order, entries, cdict, |order|) == Ok(None);
  }

  lemma RechooseOld(order: seq<string>, entries: map<string, Entry>, cdict: ConfigDict, key: string,
                    entries2: map<string, Entry>, mustExist: bool, configName: Option<string>)
    requires Ordered(order, entries) && |order| > 0 && FirstMatch(order, entries, cdict, 0) == Ok(Some(key))
    requires entries2.Keys == entries.Keys && forall n :: n in entries ==> entries2[n].base == entries[n].base
    ensures Ordered(order, entries2)
    ensures ChooseConfig(order, entries2, cdict, mustExist, configName) == Ok((key, false))
  {
    FirstMatchBases(order, entries, entries2, cdict, 0);
  }

  // ---------------------------------------------------------------- the setup dictionary

  /** The setup dictionary `instr_setup` fills: the configuration names in
      insertion order and each configuration's entry. */
  class SetupDict {
    var order: seq<string>
    var configs: map<string, InstrConfig>

    /** Each name is listed once, and each configuration has an entry object
        of its own, which knows its name. */
    ghost predicate Valid()
      reads this
    {
      Ordered(order, configs) && forall k :: k in configs ==> configs[k].name == k
    }

    /** The dictionary as a value. */
    ghost function Entries(): (es: map<string, Entry>)
      reads this, configs.Values
      ensures es.Keys == configs.Keys
    {
      map k | k in configs :: Entry(configs[k].base, configs[k].dets, configs[k].calibs)
    }

    constructor ()
      ensures Valid() && order == [] && Entries() == map[]
    {
      order, configs := [], map[];
    }

    /** The configuration loop of `instr_setup`. */
    method Choose(cdict: ConfigDict, mustExist: bool, configName: Option<string>) returns (r: Result<(string, bool)>)
      requires Valid()
      ensures r == ChooseConfig(order, Entries(), cdict, mustExist, configName)
    {
      if |order| == 0 {
        return Ok((if configName.Some? then configName.value else "A", true));
      }
      ghost var es := Entries();
      var found: Option<string> := None;
      var k := 0;
      while k < |order| && found.None?
        invariant 0 <= k <= |order|
        invariant found.None? ==> FirstMatch(order, es, cdict, 0) == FirstMatch(order, es, cdict, k)
        invariant found.Some? ==> FirstMatch(order, es, cdict, 0) == Ok(found)
        decreases |order| - k, found.None?
      {
        var m := ConfigMatch(configs[order[k]].base, cdict);
        assert es[order[k]].base == configs[order[k]].base;
        if m.Err? {
          return Err(m.msg);
        }
        if m.value {
          found := Some(order[k]);
        } else {
          k := k + 1;
        }
      }
      if found.Some? {
        return Ok((found.value, false));
      }
      if mustExist {
        return Err("This setup is not present in the setup_dict.");
      }
      var letter := NextLetter(MaxStr(order));
      if letter.Err? {
        return Err(letter.msg);
      }
      return Ok((letter.value, true));
    }

    /** `instr_setup` on this dictionary. */
    method InstrSetup(q: Request) returns (r: Result<string>)
      requires Valid()
      modifies this, configs.Values
      ensures Valid()
      ensures var out := InstrSpec(old(order), old(Entries()), q, NewCbset(q.e));
        r == out.id && order == out.order && Entries() == out.entries
    {
      if q.force.Some? {
        InstrSpecEarlyErr(order, Entries(), q, NewCbset(q.e));
        return ForcedId(q.force.value, q.det);
      }
      if |q.e.arcs| == 0 {
        InstrSpecEarlyErr(order, Entries(), q, NewCbset(q.e));
        return Err("IndexError: index 0 is out of bounds");
      }
      var choice := Choose(q.cdict, q.mustExist, q.configName);
      if choice.Err? {
        InstrSpecEarlyErr(order, Entries(), q, NewCbset(q.e));
        return Err(choice.msg);
      }
      var (key, isNew) := choice.value;
      r := File(q, key, isNew);
    }

    /** The configuration is chosen: file the exposure under it. */
    method File(q: Request, key: string, isNew: bool) returns (r: Result<string>)
      requires Valid() && q.force.None? && |q.e.arcs| > 0
      requires ChooseConfig(order, Entries(), q.cdict, q.mustExist, q.configName) == Ok((key, isNew))
      modifies this, configs.Values
      ensures Valid()
      ensures var out := InstrSpec(old(order), old(Entries()), q, NewCbset(q.e));
        r == out.id && order == out.order && Entries() == out.entries
    {
      ghost var order0, es0 := order, Entries();
      assert isNew <==> key !in configs by {
        ChooseConfigSpec(order0, es0, q.cdict, q.mustExist, q.configName);
      }
      var c: InstrConfig;
      if isNew {
        c := AddConfig(key, q.cdict);
      } else {
        c := configs[key];
      }
      ghost var es1 := Entries();
      r := Store(c, key, q);
      FiledOutcome(order0, es0, q, NewCbset(q.e), key, isNew, order, es1, r, Entry(c.base, c.dets, c.calibs));
    }

    /** Files a new configuration under `key` with an empty entry. */
    method AddConfig(key: string, cdict: ConfigDict) returns (c: InstrConfig)
      requires Valid() && key !in configs
      modifies this
      ensures Valid() && key in configs && configs[key] == c && fresh(c)
      ensures order == old(order) + [key]
      ensures Entries() == old(Entries())[key := Entry(cdict, map[], map[])]
    {
      ghost var es0, order0, configs0 := Entries(), order, configs;
      c := new InstrConfig(cdict, key);
      order := order + [key];
      configs := configs[key := c];
      assert Entries() == es0[key := Entry(cdict, map[], map[])] by {
        forall k | k in configs ensures Entries()[k] == es0[key := Entry(cdict, map[], map[])][k] {
        }
      }
      assert Valid() by {
        KeepsOrdered(order0, configs0, key, true, configs);
      }
    }

    /** `det_setup` and `calib_set` on the entry `c` filed under `key`. */
    method Store(c: InstrConfig, key: string, q: Request) returns (r: Result<string>)
      requires Valid() && key in configs && configs[key] == c
      modifies c
      ensures Valid()
      ensures Entries() == old(Entries())[key := Entry(c.base, c.dets, c.calibs)]
      ensures (r, Entry(c.base, c.dets, c.calibs)) == EntryStep(key, old(Entries())[key], q.ddict, NewCbset(q.e), q.skipCset)
    {
      ghost var es0 := Entries();
      r := c.Step(key, q.ddict, q.e, q.skipCset);
      assert Entries() == es0[key := Entry(c.base, c.dets, c.calibs)] by {
        forall k | k in configs ensures Entries()[k] == es0[key := Entry(c.base, c.dets, c.calibs)][k] {
          if k != key {
            assert configs[k].name != c.name;
          }
        }
      }
    }
  }
}
