/** The bookkeeping inside the spectrum loaders of `pypeit/core/load.py`:
    reading the order number out of an extension name, choosing which
    extensions of a one-dimensional spectrum file to load, masking the
    edges of a spectrum, and locating the extension of one Echelle order.
    The FITS files themselves are represented by the lists of extension
    names they hold. */
module Load {
  import opened Common
  import opened PyText

  const Primary := "PRIMARY"
  const OrderTag := "ORDER"

  // ---------------------------------------------------------------- extension names

  /** The extension id of object `obj` in Echelle order `n`: `obj + '-ORDER{:04d}'`. */
  function ExtId(obj: string, n: nat): string {
    obj + "-" + OrderName(n)
  }

  /** `'ORDER{:04d}'.format(n)` */
  function OrderName(n: nat): string {
    OrderTag + FormatInt(n, 4)
  }

  /** A digit string holds no dash. */
  lemma DigitsNoDash(d: string)
    requires AllDigits(d)
    ensures '-' !in d
  {
  }

  /** The order field reads back as its number. */
  lemma OrderField(n: nat)
    ensures Slice(OrderName(n), 0, 5) == OrderTag
    ensures ParseInt(From(OrderName(n), 5)) == Ok(n)
  {
    FormatParse(n, 4);
    TagField(FormatInt(n, 4));
  }

  lemma OrderNameNoDash(n: nat)
    ensures '-' !in OrderName(n)
  {
    TagField(FormatInt(n, 4));
  }

  /** `obj-ORDERnnnn` splits into its two fields. */
  lemma TwoFields(obj: string, n: nat)
    requires '-' !in obj
    ensures Split(ExtId(obj, n), '-') == [obj, OrderName(n)]
  {
    OrderNameNoDash(n);
    SplitAt(obj, OrderName(n), '-');
    assert Split(OrderName(n), '-') == [OrderName(n)];
  }

  /** `ORDER` followed by digits: the tag, then the digits. */
  lemma TagField(d: string)
    requires AllDigits(d)
    ensures Slice(OrderTag + d, 0, 5) == OrderTag
    ensures From(OrderTag + d, 5) == d
    ensures '-' !in OrderTag + d
  {
    var field := OrderTag + d;
    assert |OrderTag| == 5;
    assert field[..5] == OrderTag;
    assert field[5..] == d;
    DigitsNoDash(d);
    assert '-' !in OrderTag;
  }

  /** `int()` of a string without a minus sign is never negative. */
  lemma ParseNoMinus(s: string)
    requires '-' !in s && ParseInt(s).Ok?
    ensures ParseInt(s).value >= 0
  {
    var t := Strip(s);
    var i :| OccursAt(s, t, i);
  }

  /** `iord` in `load_specobjs`: the second-to-last dash field, when it
      starts with `ORDER`, gives the order number after those five letters;
      any other name is longslit data, `-1`. */
  function SpecObjOrder(name: string): (r: Result<int>)
  {
    var field :- OrderFieldOf(name);
    if Slice(field, 0, 5) == OrderTag then ParseInt(From(field, 5)) else Ok(-1)
  }

  /** A real order is never `-1`: the order field holds no minus sign, so
      `-1` marks exactly the names whose field lacks the `ORDER` tag. */
  lemma SpecObjLongslit(name: string)
    requires SpecObjOrder(name).Ok?
    ensures OrderFieldOf(name).Ok?
    ensures SpecObjOrder(name).value >= -1
    ensures SpecObjOrder(name).value == -1 <==> Slice(OrderFieldOf(name).value, 0, 5) != OrderTag
  {
    var field := OrderFieldOf(name).value;
    if Slice(field, 0, 5) == OrderTag {
      ParseNoMinus(From(field, 5));
    }
  }

  /** `name.split('-')[-2]`: a field, so without a dash. */
  function OrderFieldOf(name: string): (r: Result<string>)
    ensures r.Ok? ==> '-' !in r.value
  {
    var parts := Split(name, '-');
    PyIndex(parts, -2)
  }

  /** A name `obj-ORDERnnnn-det` reads back as order `n`. */
  lemma SpecObjOrderOf(obj: string, n: nat, det: string)
    requires '-' !in obj && '-' !in det
    ensures SpecObjOrder(ExtId(obj, n) + "-" + det) == Ok(n)
  {
    var field := OrderName(n);
    var name := ExtId(obj, n) + "-" + det;
    OrderField(n);
    ThreeFields(obj, n, det);
    assert OrderFieldOf(name) == Ok(field);
  }

  /** `obj-ORDERnnnn-det` splits into its three fields. */
  lemma ThreeFields(obj: string, n: nat, det: string)
    requires '-' !in obj && '-' !in det
    ensures Split(ExtId(obj, n) + "-" + det, '-') == [obj, OrderName(n), det]
  {
    OrderNameNoDash(n);
    SplitThree(obj, OrderName(n), det);
  }

  lemma SplitThree(a: string, b: string, c: string)
    requires '-' !in a && '-' !in b && '-' !in c
    ensures Split(a + "-" + b + "-" + c, '-') == [a, b, c]
  {
    assert a + "-" + b + "-" + c == a + "-" + (b + "-" + c);
    SplitAt(a, b + "-" + c, '-');
    SplitAt(b, c, '-');
    assert Split(c, '-') == [c];
  }

  /** A name with only an object and an order field, `obj-ORDERnnnn`, is
      read as longslit data: the second-to-last field is the object's. */
  lemma SpecObjTwoFields(obj: string, n: nat)
    requires '-' !in obj && Slice(obj, 0, 5) != OrderTag
    ensures SpecObjOrder(ExtId(obj, n)) == Ok(-1)
  {
    TwoFields(obj, n);
    assert OrderFieldOf(ExtId(obj, n)) == Ok(obj);
  }

  /** A name without a dash has no second-to-last field (`IndexError`). */
  lemma SpecObjNoDash(name: string)
    requires '-' !in name
    ensures SpecObjOrder(name).Err?
  {
    assert Split(name, '-') == [name];
  }

  // ---------------------------------------------------------------- load_specobjs

  /** The order read from each extension name. */
  function Parsed(hdus: seq<string>): (rs: seq<Result<int>>)
    ensures |rs| == |hdus|
  {
    seq(|hdus|, i requires 0 <= i < |hdus| => SpecObjOrder(hdus[i]))
  }

  /** The extensions `load_specobjs` loads from a file whose HDUs are named
      `hdus`, in file order; `order` is the optional order filter. */
  function SelectSpec(hdus: seq<string>, order: Option<int>): (r: Result<seq<string>>)
  {
    Filter(hdus, Parsed(hdus), order, |hdus|)
  }

  /** The first `n` extensions, filtered: the primary one is skipped, an
      unreadable name is an error, and with an order given only that order
      is kept. `iords[i]` is the order read from `names[i]`. */
  function Filter(names: seq<string>, iords: seq<Result<int>>, order: Option<int>, n: nat): (r: Result<seq<string>>)
    requires n <= |names| == |iords|
  {
    if n == 0 then Ok([])
    else
      var kept :- Filter(names, iords, order, n - 1);
      if names[n - 1] == Primary then Ok(kept)
      else
        var iord :- iords[n - 1];
        if order.Some? && iord != order.value then Ok(kept) else Ok(kept + [names[n - 1]])
  }

  /** Extension `i` passes the filter. */
  predicate KeptAt(names: seq<string>, iords: seq<Result<int>>, order: Option<int>, i: nat)
    requires i < |names| == |iords|
  {
    names[i] != Primary && iords[i].Ok? && (order.None? || iords[i].value == order.value)
  }

  /** An extension `load_specobjs` keeps. */
  predicate Keeps(name: string, order: Option<int>) {
    name != Primary && SpecObjOrder(name).Ok? && (order.None? || SpecObjOrder(name).value == order.value)
  }

  /** `a` is `b` with some elements deleted. */
  predicate SubSeq<T(==)>(a: seq<T>, b: seq<T>)
    decreases |b|
  {
    if |a| == 0 then true
    else if |b| == 0 then false
    else (a[|a| - 1] == b[|b| - 1] && SubSeq(a[..|a| - 1], b[..|b| - 1])) || SubSeq(a, b[..|b| - 1])
  }

  lemma SubSeqExtend<T>(a: seq<T>, b: seq<T>, x: T)
    requires SubSeq(a, b)
    ensures SubSeq(a, b + [x]) && SubSeq(a + [x], b + [x])
  {
    assert (b + [x])[..|b|] == b;
    assert (a + [x])[..|a|] == a;
  }

  lemma {:induction false} FilterOk(names: seq<string>, iords: seq<Result<int>>, order: Option<int>, n: nat)
    requires n <= |names| == |iords|
    ensures Filter(names, iords, order, n).Ok? <==> forall i :: 0 <= i < n && names[i] != Primary ==> iords[i].Ok?
  {
    if n > 0 {
      FilterOk(names, iords, order, n - 1);
    }
  }

  lemma {:induction false} FilterSub(names: seq<string>, iords: seq<Result<int>>, order: Option<int>, n: nat)
    requires n <= |names| == |iords| && Filter(names, iords, order, n).Ok?
    ensures SubSeq(Filter(names, iords, order, n).value, names[..n])
  {
    if n > 0 {
      FilterSub(names, iords, order, n - 1);
      assert names[..n] == names[..n - 1] + [names[n - 1]];
      var kept := Filter(names, iords, order, n - 1).value;
      SubSeqExtend(kept, names[..n - 1], names[n - 1]);
      FilterStep(names, iords, order, n - 1, kept);
    }
  }

  /** One more extension: skipped, kept, or the end of loading. */
  lemma FilterStep(names: seq<string>, iords: seq<Result<int>>, order: Option<int>, i: nat, kept: seq<string>)
    requires i < |names| == |iords| && Filter(names, iords, order, i) == Ok(kept)
    ensures names[i] != Primary && iords[i].Err? ==> Filter(names, iords, order, i + 1) == Err(iords[i].msg)
    ensures KeptAt(names, iords, order, i) ==> Filter(names, iords, order, i + 1) == Ok(kept + [names[i]])
    ensures (names[i] == Primary || iords[i].Ok?) && !KeptAt(names, iords, order, i) ==>
      Filter(names, iords, order, i + 1) == Ok(kept)
  {
  }

  lemma {:induction false} FilterMembers(names: seq<string>, iords: seq<Result<int>>, order: Option<int>, n: nat)
    requires n <= |names| == |iords| && Filter(names, iords, order, n).Ok?
    ensures forall x :: x in Filter(names, iords, order, n).value <==>
      exists i :: 0 <= i < n && names[i] == x && KeptAt(names, iords, order, i)
  {
    if n > 0 {
      FilterMembers(names, iords, order, n - 1);
      var kept := Filter(names, iords, order, n - 1).value;
      if KeptAt(names, iords, order, n - 1) {
        assert Filter(names, iords, order, n).value == kept + [names[n - 1]];
      } else {
        assert Filter(names, iords, order, n).value == kept;
      }
    }
  }

  /** The extension names that `Keeps` accepts, in file order, each as
      often as it occurs. */
  function KeptNames(hdus: seq<string>, order: Option<int>): seq<string> {
    if |hdus| == 0 then []
    else (if Keeps(hdus[0], order) then [hdus[0]] else []) + KeptNames(hdus[1..], order)
  }

  lemma {:induction false} KeptNamesSnoc(a: seq<string>, x: string, order: Option<int>)
    ensures KeptNames(a + [x], order) == KeptNames(a, order) + (if Keeps(x, order) then [x] else [])
  {
    if |a| == 0 {
      assert [x][1..] == [];
      assert a + [x] == [x];
    } else {
      assert (a + [x])[1..] == a[1..] + [x];
      KeptNamesSnoc(a[1..], x, order);
    }
  }

  /** A successful filter of the first `n` extensions keeps exactly the
      names `Keeps` accepts among them. */
  lemma {:induction false} FilterIsKept(hdus: seq<string>, order: Option<int>, n: nat)
    requires n <= |hdus| && Filter(hdus, Parsed(hdus), order, n).Ok?
    ensures Filter(hdus, Parsed(hdus), order, n).value == KeptNames(hdus[..n], order)
  {
    var rs := Parsed(hdus);
    if n > 0 {
      FilterIsKept(hdus, order, n - 1);
      assert hdus[..n] == hdus[..n - 1] + [hdus[n - 1]];
      KeptNamesSnoc(hdus[..n - 1], hdus[n - 1], order);
      FilterStep(hdus, rs, order, n - 1, Filter(hdus, rs, order, n - 1).value);
    }
  }

  /** Loading fails exactly when some non-primary extension name cannot be
      parsed; otherwise the loaded extensions are exactly those `Keeps`
      accepts, in file order and with their repetitions. */
  lemma SelectKeeps(hdus: seq<string>, order: Option<int>)
    ensures SelectSpec(hdus, order).Ok?
        <==> forall i :: 0 <= i < |hdus| && hdus[i] != Primary ==> SpecObjOrder(hdus[i]).Ok?
    ensures SelectSpec(hdus, order).Ok? ==>
      SelectSpec(hdus, order).value == KeptNames(hdus, order) &&
      SubSeq(SelectSpec(hdus, order).value, hdus) &&
      forall x :: x in SelectSpec(hdus, order).value <==> x in hdus && Keeps(x, order)
  {
    var rs := Parsed(hdus);
    FilterOk(hdus, rs, order, |hdus|);
    if SelectSpec(hdus, order).Ok? {
      FilterSub(hdus, rs, order, |hdus|);
      FilterMembers(hdus, rs, order, |hdus|);
      FilterIsKept(hdus, order, |hdus|);
    }
    assert hdus[..|hdus|] == hdus;
    forall x
      ensures (exists i :: 0 <= i < |hdus| && hdus[i] == x && KeptAt(hdus, rs, order, i)) <==> x in hdus && Keeps(x, order)
    {
      if x in hdus && Keeps(x, order) {
        var i :| 0 <= i < |hdus| && hdus[i] == x;
        assert KeptAt(hdus, rs, order, i);
      }
    }
  }

  /** A failure among the first `k` extensions is the failure of all `n`. */
  lemma {:induction false} FilterErr(names: seq<string>, iords: seq<Result<int>>, order: Option<int>, k: nat, n: nat)
    requires k <= n <= |names| == |iords| && Filter(names, iords, order, k).Err?
    ensures Filter(names, iords, order, n) == Filter(names, iords, order, k)
  {
    if k < n {
      FilterErr(names, iords, order, k, n - 1);
    }
  }

  /** `load_specobjs`: skips the primary extension and, with an order
      filter, every extension of another order. */
  method LoadSpecObjs(hdus: seq<string>, order: Option<int>) returns (r: Result<seq<string>>)
    ensures r == SelectSpec(hdus, order)
  {
    r := SelectLoop(hdus, Parsed(hdus), order);
  }

  /** The loop over HDUs in `load_specobjs`, given the order read from each name. */
  method SelectLoop(hdus: seq<string>, rs: seq<Result<int>>, order: Option<int>) returns (r: Result<seq<string>>)
    requires |rs| == |hdus|
    ensures r == Filter(hdus, rs, order, |hdus|)
  {
    var sobjs: seq<string> := [];
    for i := 0 to |hdus|
      invariant Filter(hdus, rs, order, i) == Ok(sobjs)
    {
      FilterStep(hdus, rs, order, i, sobjs);
      var name := hdus[i];
      if name == Primary {
        continue;
      }
      var parsed := rs[i];
      if parsed.Err? {
        FilterErr(hdus, rs, order, i + 1, |hdus|);
        return Err(parsed.msg);
      }
      var iord := parsed.value;
      if order.Some? && iord != order.value {
        continue;
      }
      sobjs := sobjs + [name];
    }
    return Ok(sobjs);
  }

  // ---------------------------------------------------------------- load_1dspec_to_array

  /** The slit or order id of an extension name: `int(name.split('-')[1][5:])`. */
  function SlitId(name: string): (r: Result<int>)
  {
    var field :- PyIndex(Split(name, '-'), 1);
    ParseInt(From(field, 5))
  }

  /** The second field of `obj-ORDERnnnn-det` is the order. */
  lemma SlitIdOf(obj: string, n: nat, det: string)
    requires '-' !in obj && '-' !in det
    ensures SlitId(ExtId(obj, n) + "-" + det) == Ok(n)
  {
    OrderField(n);
    ThreeFields(obj, n, det);
    assert PyIndex(Split(ExtId(obj, n) + "-" + det, '-'), 1) == Ok(OrderName(n));
  }

  /** So is the second field of `obj-ORDERnnnn`. */
  lemma SlitIdTwoFields(obj: string, n: nat)
    requires '-' !in obj
    ensures SlitId(ExtId(obj, n)) == Ok(n)
  {
    OrderField(n);
    TwoFields(obj, n);
    assert PyIndex(Split(ExtId(obj, n), '-'), 1) == Ok(OrderName(n));
  }

  /** The values of a list of results, or the first failure among them. */
  function Collect<T>(rs: seq<Result<T>>): (r: Result<seq<T>>)
    ensures r.Ok? ==> |r.value| == |rs|
  {
    if |rs| == 0 then Ok([])
    else
      var vs :- Collect(rs[..|rs| - 1]);
      var v :- rs[|rs| - 1];
      Ok(vs + [v])
  }

  /** Collecting succeeds exactly when every result does, and then keeps
      every value in place. */
  lemma {:induction false} CollectOk<T>(rs: seq<Result<T>>)
    ensures Collect(rs).Ok? <==> forall i :: 0 <= i < |rs| ==> rs[i].Ok?
    ensures Collect(rs).Ok? ==> forall i :: 0 <= i < |rs| ==> Collect(rs).value[i] == rs[i].value
  {
    if |rs| > 0 {
      var p := rs[..|rs| - 1];
      CollectOk(p);
      if !Collect(p).Ok? {
        var i :| 0 <= i < |p| && !p[i].Ok?;
        assert rs[i] == p[i];
      }
    }
  }

  /** One more success extends the collected values. */
  lemma CollectStep<T>(rs: seq<Result<T>>, i: nat, vs: seq<T>)
    requires i < |rs| && Collect(rs[..i]) == Ok(vs) && rs[i].Ok?
    ensures Collect(rs[..i + 1]) == Ok(vs + [rs[i].value])
  {
    assert rs[..i + 1][..i] == rs[..i];
  }

  /** A failure among the first `k` results is the failure of the whole list. */
  lemma {:induction false} CollectErr<T>(rs: seq<Result<T>>, k: nat)
    requires k <= |rs| && Collect(rs[..k]).Err?
    ensures Collect(rs) == Collect(rs[..k])
    decreases |rs|
  {
    if k < |rs| {
      assert rs[..|rs| - 1][..k] == rs[..k];
      CollectErr(rs[..|rs| - 1], k);
    } else {
      assert rs[..k] == rs;
    }
  }

  /** The first failure, at `i`, is the failure of the whole list. */
  lemma ErrAt<T>(rs: seq<Result<T>>, i: nat)
    requires i < |rs| && Collect(rs[..i]).Ok? && rs[i].Err?
    ensures Collect(rs) == Err(rs[i].msg)
  {
    assert rs[..i + 1][..i] == rs[..i];
    CollectErr(rs, i + 1);
  }

  /** The number of extensions after the primary one. */
  function NTrace(hdus: seq<string>): nat {
    if |hdus| == 0 then 0 else |hdus| - 1
  }

  /** The id read from each extension after the primary one, in file order. */
  function SlitIds(hdus: seq<string>): (rs: seq<Result<int>>)
    ensures |rs| == NTrace(hdus)
  {
    seq(NTrace(hdus), i requires 0 <= i < NTrace(hdus) => SlitId(hdus[i + 1]))
  }

  /** The loop building `idx_orders` in `load_1dspec_to_array`: one id per
      extension after the primary one, or the first failure to read one. */
  method OrderIds(hdus: seq<string>) returns (r: Result<seq<int>>)
    ensures r == Collect(SlitIds(hdus))
  {
    var rs := SlitIds(hdus);
    var ntrace := NTrace(hdus);
    var ids: seq<int> := [];
    for ii := 0 to ntrace
      invariant Collect(rs[..ii]) == Ok(ids)
    {
      var id := rs[ii];
      if id.Err? {
        ErrAt(rs, ii);
        return Err(id.msg);
      }
      CollectStep(rs, ii, ids);
      ids := ids + [id.value];
    }
    assert rs[..ntrace] == rs;
    return Ok(ids);
  }

  /** The Echelle orders of a file: the distinct ids in order of first
      appearance (`np.unique` with `return_index`, the indices sorted). */
  function OrderVec(ids: seq<int>): (v: seq<int>)
    ensures NoDup(v)
    ensures forall x :: x in v <==> x in ids
    ensures forall i, j :: 0 <= i < j < |v| ==> First(ids, v[i]) < First(ids, v[j])
  {
    DedupOrder(ids);
    DedupMembers(ids);
    DedupNoDup(ids);
    Dedup(ids)
  }

  /** `norder`: the number of distinct orders for Echelle data, 1 otherwise. */
  function NOrder(ids: seq<int>, echelle: bool): (n: nat)
    ensures echelle ==> n <= |ids| && (|ids| > 0 ==> n > 0)
    ensures !echelle ==> n == 1
  {
    if echelle then
      NoDupLength(ids, OrderVec(ids));
      |OrderVec(ids)|
    else 1
  }

  /** A duplicate-free list drawn from `xs` is no longer than `xs`. */
  lemma {:induction false} NoDupLength(xs: seq<int>, v: seq<int>)
    requires NoDup(v) && forall x :: x in v ==> x in xs
    ensures |v| <= |xs|
    ensures |xs| > 0 && (forall x :: x in xs ==> x in v) ==> |v| > 0
  {
    var sv := set x | x in v;
    var sx := set x | x in xs;
    assert sv <= sx;
    SetSize(v);
    SetSize(xs);
    assert (sx - sv) + sv == sx && (sx - sv) * sv == {};
    assert |sv| <= |sx|;
    if |xs| > 0 && (forall x :: x in xs ==> x in v) {
      assert xs[0] in v;
    }
  }

  /** The set of a sequence's elements is no larger than the sequence, and
      exactly as large when it has no duplicates. */
  lemma {:induction false} SetSize(xs: seq<int>)
    ensures |set x | x in xs| <= |xs|
    ensures NoDup(xs) ==> |set x | x in xs| == |xs|
  {
    if |xs| > 0 {
      var p := xs[..|xs| - 1];
      var y := xs[|xs| - 1];
      SetSize(p);
      assert xs == p + [y];
      assert (set x | x in xs) == (set x | x in p) + {y};
      if NoDup(xs) {
        assert NoDup(p);
        assert y !in p;
      }
    }
  }

  // ---------------------------------------------------------------- load_ext_to_array

  /** The extension `load_ext_to_array` reads: the last extension after the
      primary one whose name contains `extId`. Only `OPT` and `BOX`
      extractions exist. */
  method PickExt(hdus: seq<string>, extId: string, exValue: string) returns (r: Result<string>)
    ensures exValue != "OPT" && exValue != "BOX" ==> r.Err?
    ensures (exValue == "OPT" || exValue == "BOX") ==>
      (r.Ok? <==> exists i :: 1 <= i < |hdus| && Contains(hdus[i], extId))
    ensures r.Ok? ==>
      exists i :: 1 <= i < |hdus| && r.value == hdus[i] && Contains(hdus[i], extId) &&
        (forall j :: i < j < |hdus| ==> !Contains(hdus[j], extId))
  {
    if exValue != "OPT" && exValue != "BOX" {
      return Err(exValue + " is not recognized. Please change to either BOX or OPT.");
    }
    var ntrace := NTrace(hdus);
    var ext: Option<string> := None;
    ghost var at: nat := 0;
    for ii := 0 to ntrace
      invariant ext.None? <==> forall i :: 1 <= i <= ii ==> !Contains(hdus[i], extId)
      invariant ext.Some? ==>
        1 <= at <= ii && ext.value == hdus[at] && Contains(hdus[at], extId) &&
        (forall j :: at < j <= ii ==> !Contains(hdus[j], extId))
    {
      if Contains(hdus[ii + 1], extId) {
        ext := Some(hdus[ii + 1]);
        at := ii + 1;
      }
    }
    if ext.None? {
      return Err("Can not find extension " + extId);
    }
    return Ok(ext.value);
  }

  // ---------------------------------------------------------------- edge masking

  /** `m[a:b] = False` */
  function Cleared(m: seq<bool>, a: int, b: int): (r: seq<bool>)
    ensures |r| == |m|
    ensures forall i :: 0 <= i < |m| ==> r[i] == (m[i] && !(Bound(a, |m|) <= i < Bound(b, |m|)))
  {
    seq(|m|, i requires 0 <= i < |m| => m[i] && !(Bound(a, |m|) <= i < Bound(b, |m|)))
  }

  /** `mask[:n] = False; mask[-n:] = False` */
  function MaskEdges(m: seq<bool>, n: int): seq<bool> {
    Cleared(Cleared(m, 0, n), -n, |m|)
  }

  /** A positive `n` masks the first `n` and the last `n` pixels and leaves
      the others as they were. */
  lemma EdgesPositive(m: seq<bool>, n: int)
    requires n > 0
    ensures |MaskEdges(m, n)| == |m|
    ensures forall i :: 0 <= i < |m| ==> MaskEdges(m, n)[i] == (m[i] && n <= i < |m| - n)
  {
  }

  /** `n = 0` masks every pixel: `mask[-0:]` is the whole mask. */
  lemma EdgesZero(m: seq<bool>)
    ensures |MaskEdges(m, 0)| == |m|
    ensures forall i :: 0 <= i < |m| ==> !MaskEdges(m, 0)[i]
  {
  }

  /** The edge masking of `load_ext_to_array`, in place; no `nmaskedge`
      leaves the mask alone. */
  method MaskEdgesInPlace(mask: array<bool>, nmaskedge: Option<int>)
    modifies mask
    ensures nmaskedge.None? ==> mask[..] == old(mask[..])
    ensures nmaskedge.Some? ==> mask[..] == MaskEdges(old(mask[..]), nmaskedge.value)
  {
    if nmaskedge.None? {
      return;
    }
    var n := nmaskedge.value;
    ClearSlice(mask, 0, n);
    ClearSlice(mask, -n, mask.Length);
  }

  /** `mask[a:b] = False` on the array. */
  method ClearSlice(mask: array<bool>, a: int, b: int)
    modifies mask
    ensures mask[..] == Cleared(old(mask[..]), a, b)
  {
    var lo, hi := Bound(a, mask.Length), Bound(b, mask.Length);
    var i := lo;
    while i < hi
      invariant lo <= i <= if lo < hi then hi else lo
      invariant forall k :: 0 <= k < mask.Length ==> mask[k] == (old(mask[k]) && !(lo <= k < i))
    {
      mask[i] := false;
      i := i + 1;
    }
    assert forall k :: 0 <= k < mask.Length ==> mask[..][k] == Cleared(old(mask[..]), a, b)[k];
  }

  // ---------------------------------------------------------------- load_spec_order

  /** Python's index normalisation: the position `xs[i]` reads in a list of length `n`. */
  function PyPos(i: int, n: nat): (r: Result<nat>)
    ensures r.Ok? <==> -(n as int) <= i < n
    ensures r.Ok? ==> r.value < n && r.value as int == (if i >= 0 then i else n + i)
  {
    if 0 <= i < n then Ok(i)
    else if -(n as int) <= i < 0 then Ok(n + i)
    else Err("IndexError: index out of bounds")
  }

  /** Row `row` and column `col` of a `norder` by `ncol` array lie inside it. */
  lemma FlatBound(row: nat, col: nat, norder: nat, ncol: nat)
    requires row < norder && col < ncol
    ensures row * ncol + col < norder * ncol
  {
    assert row * ncol + col < row * ncol + ncol == (row + 1) * ncol;
    assert (row + 1) * ncol <= norder * ncol;
  }

  /** `exten` in `load_spec_order`: the extension names `EXT0001`... are laid
      out as a `norder` by `nspec / norder` array (one row per order, one
      column per object), and the one in row `order` and column
      `int(objid[3:]) - 1` is looked up. */
  function SpecOrderExten(extnames: seq<string>, norder: int, objid: Option<string>, order: Option<int>): (r: Result<nat>)
  {
    if order.None? then Err("Please specify which order you want to load")
    else if norder == 0 then Err("ZeroDivisionError: division by zero")
    else if norder < 0 then Err("ValueError: cannot reshape array")
    else
      match Reshape(|extnames|, norder)
      case None => Err("ValueError: cannot reshape array")
      case Some(ncol) =>
        if objid.None? then Err("TypeError: 'int' object is not subscriptable")
        else
          var k :- ParseInt(From(objid.value, 3));
          Locate(extnames, norder, ncol, k, order.value)
  }

  /** `np.reshape` of `n` items into `d` rows of `int(n/d)`: possible only
      when nothing is left over. */
  function Reshape(n: nat, d: nat): (r: Option<nat>)
    requires d > 0
    ensures r.Some? ==> d * r.value == n
    ensures (exists q: nat :: d * q == n) ==> r.Some?
  {
    var q := n / d;
    if d * q == n then Some(q)
    else
      assert forall q': nat :: d * q' == n ==> q' == q by {
        forall q': nat | d * q' == n
          ensures q' == q
        {
          DivExact(n, d, q');
        }
      }
      None
  }

  /** The extension found is a real one, and the first holding its name. */
  lemma SpecOrderFirst(extnames: seq<string>, norder: int, objid: Option<string>, order: Option<int>)
    requires SpecOrderExten(extnames, norder, objid, order).Ok?
    ensures var e := SpecOrderExten(extnames, norder, objid, order).value;
      1 <= e <= |extnames| && extnames[e - 1] !in extnames[..e - 1]
  {
    assert order.Some? && norder > 0 && objid.Some?;
    var ncol := Reshape(|extnames|, norder).value;
    var k := ParseInt(From(objid.value, 3)).value;
    assert SpecOrderExten(extnames, norder, objid, order) == Locate(extnames, norder, ncol, k, order.value);
  }

  /** The name in row `order`, column `k - 1` of the `norder` by `ncol`
      array of extension names (Python indexing on both), and the first
      position of that name counted from 1: the extension to read. */
  function Locate(extnames: seq<string>, norder: nat, ncol: nat, k: int, order: int): (r: Result<nat>)
    requires norder * ncol == |extnames|
    ensures r.Ok? ==> 1 <= r.value <= |extnames| && extnames[r.value - 1] !in extnames[..r.value - 1]
    ensures r.Ok? <==> -(ncol as int) <= k - 1 < ncol && -(norder as int) <= order < norder
  {
    var col :- PyPos(k - 1, ncol);
    var row :- PyPos(order, norder);
    FlatBound(row, col, norder, ncol);
    Ok(First(extnames, extnames[row * ncol + col]) + 1)
  }

  /** With distinct names, the name in row `row` and column `col` is
      extension `row * ncol + col + 1`. */
  lemma LocateAt(extnames: seq<string>, norder: nat, ncol: nat, k: int, order: int, row: nat, col: nat)
    requires NoDup(extnames) && norder * ncol == |extnames|
    requires row < norder && col < ncol
    requires row == (if order >= 0 then order else norder + order)
    requires col == (if k - 1 >= 0 then k - 1 else ncol + k - 1)
    ensures Locate(extnames, norder, ncol, k, order) == Ok(row * ncol + col + 1)
  {
    assert PyPos(k - 1, ncol) == Ok(col);
    assert PyPos(order, norder) == Ok(row);
    FlatBound(row, col, norder, ncol);
    NoDupFirst(extnames, row * ncol + col);
  }

  /** A division that leaves no remainder gives the factor back. */
  lemma DivExact(n: nat, d: nat, q: nat)
    requires d > 0 && d * q == n
    ensures n / d == q
  {
    var q', m := n / d, n % d;
    assert n == d * q' + m && 0 <= m < d;
    assert d * (q - q') == m;
    if q > q' {
      MulAtLeast(d, q - q');
    } else if q < q' {
      MulAtLeast(d, q' - q);
    }
  }

  lemma ReshapeExact(n: nat, d: nat, q: nat)
    requires d > 0 && d * q == n
    ensures Reshape(n, d) == Some(q)
  {
    DivExact(n, d, q);
  }

  lemma MulAtLeast(d: nat, k: int)
    requires k >= 1
    ensures d * k >= d
  {
  }

  /** Object ids `OBJ0001`...: the object number after three letters. */
  function ObjName(k: nat): string {
    "OBJ" + FormatInt(k, 4)
  }

  lemma ObjNameNumber(k: nat)
    ensures ParseInt(From(ObjName(k), 3)) == Ok(k)
  {
    assert From(ObjName(k), 3) == FormatInt(k, 4);
    FormatParse(k, 4);
  }

  /** With distinct extension names, object `k` (counted from 1) of order
      `order` (counted from 0) is extension `order * ncol + k`, where
      `ncol = nspec / norder` is the number of objects. */
  lemma SpecOrderIndex(extnames: seq<string>, norder: nat, ncol: nat, objid: string, k: int, order: nat)
    requires NoDup(extnames) && norder > 0 && norder * ncol == |extnames|
    requires ParseInt(From(objid, 3)) == Ok(k) && 1 <= k <= ncol && order < norder
    ensures SpecOrderExten(extnames, norder, Some(objid), Some(order)) == Ok(order * ncol + k)
  {
    ReshapeExact(|extnames|, norder, ncol);
    LocateAt(extnames, norder, ncol, k, order, order, k - 1);
  }

  /** Object number 0 (as in the default id `OBJ0000`) reads column `-1`:
      the last object of the order. */
  lemma SpecOrderLastObject(extnames: seq<string>, norder: nat, ncol: nat, objid: string, order: nat)
    requires NoDup(extnames) && norder > 0 && norder * ncol == |extnames| && ncol > 0
    requires ParseInt(From(objid, 3)) == Ok(0) && order < norder
    ensures SpecOrderExten(extnames, norder, Some(objid), Some(order)) == Ok((order + 1) * ncol)
  {
    ReshapeExact(|extnames|, norder, ncol);
    LocateAt(extnames, norder, ncol, 0, order, order, ncol - 1);
    assert order * ncol + (ncol - 1) + 1 == (order + 1) * ncol;
  }

  // ---------------------------------------------------------------- ech_load_spec

  /** The default object id. */
  const DefaultObjId := ObjName(0)

  /** One object id per file: none given means the default for every file,
      a single id is used for every file, otherwise one id per file is
      required. */
  function ObjIds(objid: Option<seq<string>>, nfiles: nat): (r: Result<seq<string>>)
    ensures r.Ok? <==> objid.None? || |objid.value| == 1 || |objid.value| == nfiles
    ensures r.Ok? ==> |r.value| == nfiles
    ensures r.Ok? ==> forall i :: 0 <= i < nfiles ==>
      r.value[i] == (if objid.None? then DefaultObjId else if |objid.value| == 1 then objid.value[0] else objid.value[i])
  {
    if objid.None? then Ok(seq(nfiles, _ => DefaultObjId))
    else if |objid.value| == 1 then Ok(seq(nfiles, _ => objid.value[0]))
    else if |objid.value| != nfiles then Err("The length of objid should be either 1 or equal to the number of spectra files.")
    else Ok(objid.value)
  }

  /** `norder`: the span of `ECHORDER` between the first and the last
      extension; a single order is not Echelle data. */
  function NOrders(first: int, last: int): (r: Result<nat>)
    ensures r.Ok? <==> first != last
    ensures r.Ok? ==> r.value >= 2 && (r.value == last - first + 1 || r.value == first - last + 1)
  {
    var n: int := if last >= first then last - first + 1 else first - last + 1;
    if n <= 1 then Err("The number of orders have to be greater than one for echelle. Longslit data?")
    else Ok(n as nat)
  }

  /** The extensions of every order of one file, in order. */
  function AllOrders(extnames: seq<string>, objid: string, norder: nat): (rs: seq<Result<nat>>)
    ensures |rs| == norder
  {
    seq(norder, iord requires 0 <= iord < norder => SpecOrderExten(extnames, norder, Some(objid), Some(iord)))
  }

  /** The extensions `ech_load_spec` loads from one file. */
  function FileLoads(extnames: seq<string>, objid: string, norder: nat, order: Option<int>): (r: Result<seq<nat>>)
  {
    if order.None? then Collect(AllOrders(extnames, objid, norder))
    else if order.value >= norder then Err("order number cannot greater than the total number of orders")
    else
      var e :- SpecOrderExten(extnames, norder, Some(objid), order);
      Ok([e])
  }

  /** Each file's loads, in file order. */
  function PerFile(files: seq<seq<string>>, ids: seq<string>, norder: nat, order: Option<int>): (rs: seq<Result<seq<nat>>>)
    requires |ids| == |files|
    ensures |rs| == |files|
  {
    seq(|files|, ii requires 0 <= ii < |files| => FileLoads(files[ii], ids[ii], norder, order))
  }

  /** What `ech_load_spec` loads: for each file (given by its extension
      names), the extensions appended to `spectra_list`. `first` and `last`
      are the `ECHORDER` cards of the first and last extension of the
      first file. */
  function EchSpec(files: seq<seq<string>>, objid: Option<seq<string>>, order: Option<int>, first: int, last: int): (r: Result<seq<seq<nat>>>)
    ensures r.Ok? ==> |r.value| == |files| > 0 && ObjIds(objid, |files|).Ok? && NOrders(first, last).Ok?
  {
    var ids :- ObjIds(objid, |files|);
    if |files| == 0 then Err("IndexError: list index out of range")
    else
      var norder :- NOrders(first, last);
      Collect(PerFile(files, ids, norder, order))
  }

  /** Loading every order of a file: `norder` extensions, order `iord`
      read by `load_spec_order`. */
  lemma AllOrdersLoaded(extnames: seq<string>, objid: string, norder: nat)
    requires Collect(AllOrders(extnames, objid, norder)).Ok?
    ensures var v := Collect(AllOrders(extnames, objid, norder)).value;
      |v| == norder &&
      forall iord :: 0 <= iord < norder ==> Ok(v[iord]) == SpecOrderExten(extnames, norder, Some(objid), Some(iord))
  {
    CollectOk(AllOrders(extnames, objid, norder));
  }

  /** Every file contributes its group of loads, in file order. */
  lemma EchGroups(files: seq<seq<string>>, objid: Option<seq<string>>, order: Option<int>, first: int, last: int)
    requires EchSpec(files, objid, order, first, last).Ok?
    ensures var ids := ObjIds(objid, |files|).value;
      forall ii :: 0 <= ii < |files| ==>
        FileLoads(files[ii], ids[ii], NOrders(first, last).value, order) == Ok(EchSpec(files, objid, order, first, last).value[ii])
  {
    var ids := ObjIds(objid, |files|).value;
    CollectOk(PerFile(files, ids, NOrders(first, last).value, order));
  }

  /** Without an order, every file contributes all `norder` orders in turn. */
  lemma EchAllOrders(files: seq<seq<string>>, objid: Option<seq<string>>, first: int, last: int)
    requires EchSpec(files, objid, None, first, last).Ok?
    ensures var groups := EchSpec(files, objid, None, first, last).value;
      var ids := ObjIds(objid, |files|).value;
      var norder := NOrders(first, last).value;
      forall ii, iord :: 0 <= ii < |files| && 0 <= iord < norder ==>
        |groups[ii]| == norder && Ok(groups[ii][iord]) == SpecOrderExten(files[ii], norder, Some(ids[ii]), Some(iord))
  {
    var ids := ObjIds(objid, |files|).value;
    var norder := NOrders(first, last).value;
    EchGroups(files, objid, None, first, last);
    forall ii | 0 <= ii < |files|
      ensures Collect(AllOrders(files[ii], ids[ii], norder)).Ok?
    {
    }
    forall ii | 0 <= ii < |files| {
      AllOrdersLoaded(files[ii], ids[ii], norder);
    }
  }

  /** With an order, every file contributes exactly that order. */
  lemma EchOneOrder(files: seq<seq<string>>, objid: Option<seq<string>>, order: int, first: int, last: int)
    requires EchSpec(files, objid, Some(order), first, last).Ok?
    ensures order < NOrders(first, last).value
    ensures var groups := EchSpec(files, objid, Some(order), first, last).value;
      var ids := ObjIds(objid, |files|).value;
      forall ii :: 0 <= ii < |files| ==>
        |groups[ii]| == 1 && Ok(groups[ii][0]) == SpecOrderExten(files[ii], NOrders(first, last).value, Some(ids[ii]), Some(order))
  {
    EchGroups(files, objid, Some(order), first, last);
    assert FileLoads(files[0], ObjIds(objid, |files|).value[0], NOrders(first, last).value, Some(order)).Ok?;
  }

  /** A file with a single order is not Echelle data. */
  lemma EchSingleOrder(files: seq<seq<string>>, objid: Option<seq<string>>, order: Option<int>, first: int)
    ensures EchSpec(files, objid, order, first, first).Err?
  {
  }

  /** An order beyond the last one is refused. */
  lemma EchOrderTooLarge(files: seq<seq<string>>, objid: Option<seq<string>>, order: int, first: int, last: int)
    requires NOrders(first, last).Ok? && order >= NOrders(first, last).value
    ensures EchSpec(files, objid, Some(order), first, last).Err?
  {
    if EchSpec(files, objid, Some(order), first, last).Ok? {
      EchGroups(files, objid, Some(order), first, last);
    }
  }

  /** The inner loop of `ech_load_spec`: every order of one file. */
  method LoadAllOrders(extnames: seq<string>, objid: string, norder: nat) returns (r: Result<seq<nat>>)
    ensures r == Collect(AllOrders(extnames, objid, norder))
  {
    var rs := AllOrders(extnames, objid, norder);
    var extens: seq<nat> := [];
    for iord := 0 to norder
      invariant Collect(rs[..iord]) == Ok(extens)
    {
      var e := rs[iord];
      if e.Err? {
        ErrAt(rs, iord);
        return Err(e.msg);
      }
      CollectStep(rs, iord, extens);
      extens := extens + [e.value];
    }
    assert rs[..norder] == rs;
    return Ok(extens);
  }

  /** The body of the loop over files in `ech_load_spec`. */
  method LoadFile(extnames: seq<string>, objid: string, norder: nat, order: Option<int>) returns (g: Result<seq<nat>>)
    ensures g == FileLoads(extnames, objid, norder, order)
  {
    if order.None? {
      g := LoadAllOrders(extnames, objid, norder);
    } else if order.value >= norder {
      g := Err("order number cannot greater than the total number of orders");
    } else {
      var e := SpecOrderExten(extnames, norder, Some(objid), order);
      g := if e.Ok? then Ok([e.value]) else Err(e.msg);
    }
  }

  /** `ech_load_spec` up to the collation of the loaded spectra: the
      extensions loaded from each file, in order. */
  method EchLoadSpec(files: seq<seq<string>>, objid: Option<seq<string>>, order: Option<int>, first: int, last: int)
    returns (r: Result<seq<seq<nat>>>)
    ensures r == EchSpec(files, objid, order, first, last)
  {
    var idsR := ObjIds(objid, |files|);
    if idsR.Err? {
      return Err(idsR.msg);
    }
    var ids := idsR.value;
    if |files| == 0 {
      return Err("IndexError: list index out of range");
    }
    var norderR := NOrders(first, last);
    if norderR.Err? {
      return Err(norderR.msg);
    }
    r := LoadFiles(files, ids, norderR.value, order);
  }

  /** The loop over files in `ech_load_spec`. */
  method LoadFiles(files: seq<seq<string>>, ids: seq<string>, norder: nat, order: Option<int>)
    returns (r: Result<seq<seq<nat>>>)
    requires |ids| == |files|
    ensures r == Collect(PerFile(files, ids, norder, order))
  {
    var rs := PerFile(files, ids, norder, order);
    var groups: seq<seq<nat>> := [];
    for ii := 0 to |files|
      invariant Collect(rs[..ii]) == Ok(groups)
    {
      var g := LoadFile(files[ii], ids[ii], norder, order);
      assert g == rs[ii];
      if g.Err? {
        ErrAt(rs, ii);
        return Err(g.msg);
      }
      CollectStep(rs, ii, groups);
      groups := groups + [g.value];
    }
    assert rs[..|files|] == rs;
    return Ok(groups);
  }
}
