/** The slit-tracing driver: a `TraceSlits` object holds the edge map, the
    counts and label ranges of left and right edges, the traced edges and
    the log of stages run.  The numerical routines it calls (edge detection,
    matching, slit assignment, fitting, PCA) are parameters: an `Artrace`
    value whose functions promise nothing beyond the shapes of their
    results. */
module TraceSlits {
  import opened Common
  import opened EdgeLabels
  import Sorting

  /** One slit edge: its column position on every detector row. */
  type Trace = seq<real>

  /** Slit-major traces: `t[o]` is slit `o`, i.e. column `o` of the source's
      (rows x slits) array. */
  type Traces = seq<Trace>

  /** Polynomial fit coefficients of the edges on one side. */
  datatype Fit = Fit(coeffs: seq<seq<real>>)

  /** The crude traces (`tc_dict`). */
  datatype CrudeTraces = CrudeTraces(traces: seq<seq<real>>)

  /** The settings the driver reads.  `fracpix` is `int(fracignore * ncol)`. */
  datatype Settings = Settings(single: seq<int>, maxgap: Option<int>, pcaType: string, fracpix: int)

  /** The routines of the slit-tracing library, as values. */
  datatype Artrace = Artrace(
    fromBinarr: (Grid, Grid),
    fromUser: (int, int, int) -> Grid,
    matchEdges: (Grid, int) -> (Grid, int, int),
    addLeftRight: (Grid, int, int, int) -> (Grid, int, int),
    assignSlits: (Grid, int) -> Grid,
    closeSlits: (Grid, Grid, int) -> Grid,
    finalLeftRight: (Grid, int, Option<Grid>) -> (Grid, int, int),
    tcrude: (Grid, Option<Grid>, int) -> (Grid, CrudeTraces),
    mslitSync: (Grid, Option<CrudeTraces>, int) -> Grid,
    addUserEdges: (Grid, Option<Grid>, Option<CrudeTraces>, seq<(int, int)>) -> Grid,
    ignoreOrders: Grid -> (Grid, Ranges),
    fitEdges: (Grid, int, int, bool) -> Fit,
    evalFirst: Fit -> Trace,
    synchronize: (Grid, Ranges, Fit, Fit) -> (Traces, Traces, Fit, Fit),
    pcaOrder: (Grid, Traces, Traces, Fit, Fit) -> (Traces, Traces, seq<bool>),
    pcaPixel: (Grid, Traces, Traces, Fit, Fit) -> (Traces, Traces, seq<bool>))

  /** Left and right traces of the same slits, each covering `nrow` rows. */
  predicate WellTraces(l: Traces, r: Traces, nrow: nat) {
    |l| == |r| && forall o :: 0 <= o < |l| ==> |l[o]| == nrow && |r[o]| == nrow
  }

  /** The only promise made about the library: its traces span the detector rows. */
  ghost predicate Shapes(art: Artrace, nrow: nat) {
    EvalShape(art, nrow) && SyncShape(art, nrow) && PcaShape(art, nrow)
  }

  ghost predicate EvalShape(art: Artrace, nrow: nat) {
    forall f :: |art.evalFirst(f)| == nrow
  }

  ghost predicate SyncShape(art: Artrace, nrow: nat) {
    forall g, rg, a, b :: WellTraces(art.synchronize(g, rg, a, b).0, art.synchronize(g, rg, a, b).1, nrow)
  }

  ghost predicate PcaShape(art: Artrace, nrow: nat) {
    (forall g, l, r, a, b :: WellTraces(art.pcaOrder(g, l, r, a, b).0, art.pcaOrder(g, l, r, a, b).1, nrow)) &&
    (forall g, l, r, a, b :: WellTraces(art.pcaPixel(g, l, r, a, b).0, art.pcaPixel(g, l, r, a, b).1, nrow))
  }

  // ---------------------------------------------------------------- order-preserving filters

  /** `np.where(mask == 0)[0]`: the unmasked positions, in increasing order. */
  function Kept(mask: seq<bool>): (ww: seq<nat>)
    ensures forall k :: 0 <= k < |ww| ==> ww[k] < |mask| && !mask[ww[k]]
    ensures forall k, l :: 0 <= k < l < |ww| ==> ww[k] < ww[l]
    ensures forall o :: 0 <= o < |mask| && !mask[o] ==> o in ww
  {
    if |mask| == 0 then []
    else
      var init := Kept(mask[..|mask| - 1]);
      assert forall o :: 0 <= o < |mask| - 1 ==> mask[..|mask| - 1][o] == mask[o];
      if mask[|mask| - 1] then init else init + [|mask| - 1]
  }

  /** Fancy indexing `xs[ww]`. */
  function Pick<T>(xs: seq<T>, ww: seq<nat>): (r: seq<T>)
    requires forall k :: 0 <= k < |ww| ==> ww[k] < |xs|
    ensures |r| == |ww| && forall k :: 0 <= k < |ww| ==> r[k] == xs[ww[k]]
  {
    seq(|ww|, k requires 0 <= k < |ww| => xs[ww[k]])
  }

  /** `np.all(row) == False`: some entry of the row is zero. */
  predicate HasZero(t: Trace) { 0.0 in t }

  /** Slits the no-PCA branch of `_pca` drops: a zero in either edge. */
  function NoPcaMask(lcent: Traces, rcent: Traces): (mask: seq<bool>)
    requires |lcent| == |rcent|
    ensures |mask| == |lcent|
    ensures forall o :: 0 <= o < |lcent| ==> (mask[o] <==> HasZero(lcent[o]) || HasZero(rcent[o]))
  {
    seq(|lcent|, o requires 0 <= o < |lcent| => HasZero(lcent[o]) || HasZero(rcent[o]))
  }

  /** Without PCA the kept slits are exactly those with no zero in either
      edge, in their original order, and each keeps its rows. */
  lemma NoPcaKeeps(lcent: Traces, rcent: Traces, nrow: nat)
    requires WellTraces(lcent, rcent, nrow)
    ensures var ww := Kept(NoPcaMask(lcent, rcent));
      WellTraces(Pick(lcent, ww), Pick(rcent, ww), nrow) &&
      (forall k :: 0 <= k < |ww| ==> !HasZero(Pick(lcent, ww)[k]) && !HasZero(Pick(rcent, ww)[k])) &&
      (forall o :: 0 <= o < |lcent| && !HasZero(lcent[o]) && !HasZero(rcent[o]) ==> o in ww) &&
      (forall k, l :: 0 <= k < l < |ww| ==> ww[k] < ww[l])
  {
  }

  function MinOf(t: Trace): (m: real)
    requires |t| >= 1
    ensures m in t && forall k :: 0 <= k < |t| ==> m <= t[k]
  {
    if |t| == 1 then t[0]
    else
      var m := MinOf(t[1..]);
      assert forall k :: 1 <= k < |t| ==> t[k] == t[1..][k - 1];
      if t[0] <= m then t[0] else m
  }

  function MaxOf(t: Trace): (m: real)
    requires |t| >= 1
    ensures m in t && forall k :: 0 <= k < |t| ==> t[k] <= m
  {
    if |t| == 1 then t[0]
    else
      var m := MaxOf(t[1..]);
      assert forall k :: 1 <= k < |t| ==> t[k] == t[1..][k - 1];
      if t[0] >= m then t[0] else m
  }

  /** The slit width on every row. */
  function Width(l: Trace, r: Trace): (w: Trace)
    requires |l| == |r|
    ensures |w| == |l| && forall k :: 0 <= k < |l| ==> w[k] == r[k] - l[k]
  {
    seq(|l|, k requires 0 <= k < |l| => r[k] - l[k])
  }

  /** `trim_slits` drops a slit that lies right of the detector, left of it,
      or (with `usefracpix`) whose median width is under `fracpix`. */
  predicate OffOrNarrow(l: Trace, r: Trace, ncol: int, fracpix: int, usefracpix: bool)
    requires |l| == |r| >= 1
  {
    MinOf(l) > ncol as real || MaxOf(r) < 0.0 ||
    (usefracpix && Sorting.Median(Width(l, r)) < fracpix as real)
  }

  /** The slits that can be measured: the rows are not empty, or there is no slit. */
  predicate Measurable(lcen: Traces, rcen: Traces, nrow: nat) {
    WellTraces(lcen, rcen, nrow) && (|lcen| > 0 ==> nrow >= 1)
  }

  function TrimMask(lcen: Traces, rcen: Traces, nrow: nat, ncol: int, fracpix: int, usefracpix: bool): (mask: seq<bool>)
    requires Measurable(lcen, rcen, nrow)
    ensures |mask| == |lcen|
  {
    seq(|lcen|, o requires 0 <= o < |lcen| => OffOrNarrow(lcen[o], rcen[o], ncol, fracpix, usefracpix))
  }

  /** After trimming, slit `k` of the result is the `k`-th retained slit; a slit
      is retained exactly when it is neither off the detector nor too narrow;
      retained slits keep their left-to-right order and their rows. */
  lemma TrimKeeps(lcen: Traces, rcen: Traces, nrow: nat, ncol: int, fracpix: int, usefracpix: bool)
    requires Measurable(lcen, rcen, nrow)
    ensures var ww := Kept(TrimMask(lcen, rcen, nrow, ncol, fracpix, usefracpix));
      WellTraces(Pick(lcen, ww), Pick(rcen, ww), nrow) &&
      (forall k :: 0 <= k < |ww| ==> !OffOrNarrow(lcen[ww[k]], rcen[ww[k]], ncol, fracpix, usefracpix)) &&
      (forall o :: 0 <= o < |lcen| && !OffOrNarrow(lcen[o], rcen[o], ncol, fracpix, usefracpix) ==> o in ww) &&
      (forall k, l :: 0 <= k < l < |ww| ==> ww[k] < ww[l])
  {
  }

  /** `trim_slits`'s loop: slit `o` is marked when it is off the detector or
      too narrow, in the order the source tests those conditions. */
  method TrimMaskLoop(l: Traces, rc: Traces, nrow: nat, ncol: int, fracpix: int, usefracpix: bool)
    returns (mask: seq<bool>)
    requires Measurable(l, rc, nrow)
    ensures mask == TrimMask(l, rc, nrow, ncol, fracpix, usefracpix)
  {
    var nslit := |l|;
    var m := new bool[nslit](_ => false);
    var o := 0;
    while o < nslit
      invariant 0 <= o <= nslit
      invariant forall k :: 0 <= k < o ==> m[k] == OffOrNarrow(l[k], rc[k], ncol, fracpix, usefracpix)
      invariant forall k :: o <= k < nslit ==> !m[k]
    {
      if MinOf(l[o]) > ncol as real {
        m[o] := true;
      } else if MaxOf(rc[o]) < 0.0 {
        m[o] := true;
      }
      if usefracpix {
        if Sorting.Median(Width(l[o], rc[o])) < fracpix as real {
          m[o] := true;
        }
      }
      assert m[o] == OffOrNarrow(l[o], rc[o], ncol, fracpix, usefracpix);
      o := o + 1;
    }
    mask := m[..];
    assert forall k :: 0 <= k < nslit ==> mask[k] == TrimMask(l, rc, nrow, ncol, fracpix, usefracpix)[k];
  }

  // ---------------------------------------------------------------- the stage log

  /** The entries of `steps`: one per stage, under the name the source logs. */
  datatype Step =
    | MakeBinarr | EdgearrFromBinarr | EdgearrSingleSlit | MatchEdges | AddLeftRight
    | MaxgapPrep | AssignEdges | MaxgapClose | FinalLeftRight | MslitTcrude | MslitSync
    | AddUserSlits | IgnoreOrders | FitEdgesLeft | FitEdgesRight | Synchronize
    | PcaOrderSlitEdges | PcaPixelSlitEdges | TrimSlits

  /** The logged string: the method's own name, `_fit_edges` with its side. */
  function Name(s: Step): string {
    match s
    case MakeBinarr => "make_binarr"
    case EdgearrFromBinarr => "_edgearr_from_binarr"
    case EdgearrSingleSlit => "_edgearr_single_slit"
    case MatchEdges => "_match_edges"
    case AddLeftRight => "_add_left_right"
    case MaxgapPrep => "_maxgap_prep"
    case AssignEdges => "_assign_edges"
    case MaxgapClose => "_maxgap_close"
    case FinalLeftRight => "_final_left_right"
    case MslitTcrude => "_mslit_tcrude"
    case MslitSync => "_mslit_sync"
    case AddUserSlits => "add_user_slits"
    case IgnoreOrders => "_ignore_orders"
    case FitEdgesLeft => "_fit_edges_left"
    case FitEdgesRight => "_fit_edges_right"
    case Synchronize => "_synchronize"
    case PcaOrderSlitEdges => "_pca_order_slit_edges"
    case PcaPixelSlitEdges => "_pca_pixel_slit_edges"
    case TrimSlits => "trim_slits"
  }

  /** No two stages share a logged name, so the string log and the `Step` log
      determine each other. */
  lemma NamesDistinct(a: Step, b: Step)
    ensures Name(a) == Name(b) ==> a == b
  {
    if Name(a) == Name(b) {
      assert |Name(a)| == |Name(b)| && Name(a)[..4] == Name(b)[..4];
    }
  }

  /** The options `run` branches on. */
  datatype RunConfig = RunConfig(single: bool, maxgap: bool, armlsd: bool, user: bool, ignore: bool, pcaType: string)

  function PcaStep(pcaType: string): seq<Step> {
    if pcaType == "order" then [PcaOrderSlitEdges]
    else if pcaType == "pixel" then [PcaPixelSlitEdges]
    else []
  }

  /** Edge detection, matching and the extra left/right edges. */
  function PlanFind(single: bool): seq<Step> {
    [if single then EdgearrSingleSlit else EdgearrFromBinarr, MatchEdges, AddLeftRight]
  }

  /** Slit assignment and the optional gap closing, then the final left/right
      pass unless the slit came from the user. */
  function PlanAssign(maxgap: bool, single: bool): seq<Step> {
    [AssignEdges] + (if maxgap then [MaxgapClose] else []) + (if single then [] else [FinalLeftRight])
  }

  /** The stages up to the crude tracing, the gap preparation before the assignment. */
  function PlanDetect(c: RunConfig): seq<Step> {
    PlanFind(c.single) + (if c.maxgap then [MaxgapPrep] else []) + PlanAssign(c.maxgap, c.single)
    + (if c.armlsd then [MslitTcrude, MslitSync] else [])
  }

  /** The optional corrections between detection and fitting. */
  function PlanAdjust(c: RunConfig): seq<Step> {
    (if c.user then [AddUserSlits] else []) + (if c.ignore then [IgnoreOrders] else [])
  }

  /** What follows the fits: nothing for a longslit. */
  function PlanFinish(c: RunConfig, longslit: bool): seq<Step> {
    if longslit then [] else [Synchronize] + PcaStep(c.pcaType) + [TrimSlits]
  }

  /** The stages `run` appends, in order. */
  function Plan(c: RunConfig, longslit: bool): seq<Step> {
    PlanDetect(c) + PlanAdjust(c) + [FitEdgesLeft, FitEdgesRight] + PlanFinish(c, longslit)
  }

  /** A longslit run logs a prefix of the full run's stages, missing exactly the
      synchronisation, the PCA step and the trim. */
  lemma PlanLongslitPrefix(c: RunConfig)
    ensures Plan(c, true) <= Plan(c, false)
    ensures Plan(c, false) == Plan(c, true) + [Synchronize] + PcaStep(c.pcaType) + [TrimSlits]
  {
  }

  /** Each run starts with edge detection and matching and ends with the fits
      (longslit) or the trim, and the matching comes before the assignment. */
  lemma PlanShape(c: RunConfig, longslit: bool)
    ensures |Plan(c, longslit)| >= 6
    ensures Plan(c, longslit)[0] == (if c.single then EdgearrSingleSlit else EdgearrFromBinarr)
    ensures Plan(c, longslit)[1] == MatchEdges && Plan(c, longslit)[2] == AddLeftRight
    ensures Plan(c, longslit)[if c.maxgap then 4 else 3] == AssignEdges
    ensures Plan(c, longslit)[|Plan(c, longslit)| - 1] == (if longslit then FitEdgesRight else TrimSlits)
  {
  }

  /** A run that stops early has logged a prefix of what it would have logged. */
  lemma PrefixExtends<T>(a: seq<T>, b: seq<T>, c: seq<T>)
    requires a <= b
    ensures a <= b + c
  {
  }

  /** A log that stopped inside one phase stays within any plan that starts
      with that phase. */
  lemma PrefixWithin<T>(a: seq<T>, s: seq<T>, p: seq<T>, t: seq<T>)
    requires a <= s <= a + p
    ensures a <= s <= a + (p + t)
  {
    assert a + (p + t) == (a + p) + t;
  }

  /** The detection phase logs its three parts one after the other. */
  lemma DetectLog(c: RunConfig, s0: seq<Step>, s1: seq<Step>, s: seq<Step>)
    requires s1 == s0 + PlanFind(c.single) + (if c.maxgap then [MaxgapPrep] else [])
    requires s == s1 + PlanAssign(c.maxgap, c.single) + (if c.armlsd then [MslitTcrude, MslitSync] else [])
    ensures s == s0 + PlanDetect(c)
  {
  }

  /** The stages after the corrections: the fits, then what a longslit skips. */
  function PlanFit(c: RunConfig, longslit: bool): seq<Step> {
    [FitEdgesLeft, FitEdgesRight] + PlanFinish(c, longslit)
  }

  /** The three phases of `run` log its plan. */
  lemma RunLog(c: RunConfig, longslit: bool, s0: seq<Step>, s1: seq<Step>, s2: seq<Step>, s: seq<Step>)
    requires s1 == s0 + PlanDetect(c) && s2 == s1 + PlanAdjust(c)
    requires s == s2 + PlanFit(c, longslit)
    ensures s == s0 + Plan(c, longslit)
  {
    var pd, pa, pf := PlanDetect(c), PlanAdjust(c), PlanFit(c, longslit);
    assert Plan(c, longslit) == pd + pa + pf;
    Concat3(s0, pd, pa, pf);
  }

  lemma Concat3<T>(a: seq<T>, b: seq<T>, c: seq<T>, d: seq<T>)
    ensures a + b + c + d == a + (b + c + d)
  {
  }

  /** A run that failed while detecting or correcting stays within the full plan. */
  lemma RunLogEarlyErr(c: RunConfig, s0: seq<Step>, s: seq<Step>)
    requires s0 <= s <= s0 + PlanDetect(c)
    ensures s0 <= s <= s0 + Plan(c, false)
  {
    PrefixWithin(s0, s, PlanDetect(c), PlanAdjust(c) + PlanFit(c, false));
  }

  /** A run that failed in its fitting phase stays within the full plan. */
  lemma RunLogFitErr(c: RunConfig, s0: seq<Step>, s2: seq<Step>, s: seq<Step>)
    requires s2 == s0 + PlanDetect(c) + PlanAdjust(c)
    requires s2 <= s <= s2 + PlanFit(c, false)
    ensures s0 <= s <= s0 + Plan(c, false)
  {
    assert s0 + Plan(c, false) == s2 + PlanFit(c, false);
    assert s0 <= s2;
  }

  // ---------------------------------------------------------------- the object

  class TraceSlits {
    const nrow: nat
    const ncol: nat
    const settings: Settings
    const det: int
    const ednum: int

    var edgearr: Grid
    var edgearrcp: Grid
    var siglev: Option<Grid>
    var tcDict: Option<CrudeTraces>
    var steps: seq<Step>
    var userSet: bool
    var lcnt: int
    var rcnt: int
    /** `lmin`, `lmax`, `rmin`, `rmax`. */
    var ranges: Ranges
    var lcoeff: Fit
    var rcoeff: Fit
    var lcent: Traces
    var rcent: Traces
    var lcen: Traces
    var rcen: Traces
    var extrapord: seq<bool>

    /** The object as constructed: only the smoothing of the trace image has run. */
    constructor (nrow: nat, ncol: nat, settings: Settings, det: int, ednum: int)
      ensures this.nrow == nrow && this.ncol == ncol && this.settings == settings
      ensures this.det == det && this.ednum == ednum
      ensures steps == [MakeBinarr] && edgearr == [] && siglev.None? && tcDict.None?
      ensures lcen == [] && rcen == [] && extrapord == []
    {
      this.nrow, this.ncol, this.settings, this.det, this.ednum := nrow, ncol, settings, det, ednum;
      edgearr, edgearrcp, siglev, tcDict := [], [], None, None;
      steps := [MakeBinarr];
      userSet := false;
      lcnt, rcnt, ranges := 0, 0, Ranges(0, 0, 0, 0);
      lcoeff, rcoeff := Fit([]), Fit([]);
      lcent, rcent, lcen, rcen, extrapord := [], [], [], [], [];
    }

    method EdgearrFromBinarr(art: Artrace)
      modifies this`siglev, this`edgearr, this`steps
      ensures siglev == Some(art.fromBinarr.0) && edgearr == art.fromBinarr.1
      ensures steps == old(steps) + [Step.EdgearrFromBinarr]
    {
      siglev, edgearr := Some(art.fromBinarr.0), art.fromBinarr.1;
      steps := steps + [Step.EdgearrFromBinarr];
    }

    /** The user-given edges of detector `det` are entries `2(det-1)` and
        `2(det-1)+1` of the `single` list, with Python's negative indexing. */
    method EdgearrSingleSlit(art: Artrace) returns (r: Result<()>)
      modifies this`siglev, this`edgearr, this`steps
      ensures var i := (det - 1) * 2;
        r.Ok? <==> PyIndex(settings.single, i).Ok? && PyIndex(settings.single, i + 1).Ok?
      ensures r.Ok? ==>
        var i := (det - 1) * 2;
        edgearr == art.fromUser(PyIndex(settings.single, i).value, PyIndex(settings.single, i + 1).value, det) &&
        siglev.None? && steps == old(steps) + [Step.EdgearrSingleSlit]
      ensures r.Err? ==> steps == old(steps) && edgearr == old(edgearr) && siglev == old(siglev)
    {
      var iledge, iredge := (det - 1) * 2, (det - 1) * 2 + 1;
      var ledge := PyIndex(settings.single, iledge);
      var redge := PyIndex(settings.single, iredge);
      if ledge.Err? || redge.Err? {
        return Err("IndexError: list index out of range");
      }
      edgearr := art.fromUser(ledge.value, redge.value, det);
      siglev := None;
      steps := steps + [Step.EdgearrSingleSlit];
      r := Ok(());
    }

    /** The counts are stored before the sanity check; the stage is logged only
        when both stay below `ednum`. */
    method MatchEdges(art: Artrace) returns (r: Result<()>)
      modifies this`edgearr, this`lcnt, this`rcnt, this`steps
      ensures (edgearr, lcnt, rcnt) == art.matchEdges(old(edgearr), ednum)
      ensures r.Err? <==> TooManyEdges(lcnt, rcnt, ednum)
      ensures steps == if r.Ok? then old(steps) + [Step.MatchEdges] else old(steps)
    {
      var res := art.matchEdges(edgearr, ednum);
      edgearr, lcnt, rcnt := res.0, res.1, res.2;
      if TooManyEdges(lcnt, rcnt, ednum) {
        return Err("Found more edges than allowed by ednum");
      }
      steps := steps + [Step.MatchEdges];
      r := Ok(());
    }

    method AddLeftRight(art: Artrace)
      modifies this`edgearr, this`lcnt, this`rcnt, this`steps
      ensures (edgearr, lcnt, rcnt) == art.addLeftRight(old(edgearr), old(lcnt), old(rcnt), ednum)
      ensures steps == old(steps) + [Step.AddLeftRight]
    {
      var res := art.addLeftRight(edgearr, lcnt, rcnt, ednum);
      edgearr, lcnt, rcnt := res.0, res.1, res.2;
      steps := steps + [Step.AddLeftRight];
    }

    /** A side with a single edge collapses its far labels onto `±ednum`;
        otherwise the library assigns the slits of that side. */
    method AssignEdges(art: Artrace)
      modifies this`edgearr, this`steps
      ensures var mid := if lcnt == 1 then MapGrid(old(edgearr), CollapseLeft(ednum))
                         else art.assignSlits(old(edgearr), -1);
        edgearr == if rcnt == 1 then MapGrid(mid, CollapseRight(ednum)) else art.assignSlits(mid, 1)
      ensures steps == old(steps) + [Step.AssignEdges]
    {
      if lcnt == 1 {
        edgearr := MapGrid(edgearr, CollapseLeft(ednum));
      } else {
        edgearr := art.assignSlits(edgearr, -1);
      }
      if rcnt == 1 {
        edgearr := MapGrid(edgearr, CollapseRight(ednum));
      } else {
        edgearr := art.assignSlits(edgearr, 1);
      }
      steps := steps + [Step.AssignEdges];
    }

    /** The copy is taken first; the shift fails only on an empty map. */
    method MaxgapPrep() returns (r: Result<()>)
      modifies this`edgearrcp, this`edgearr, this`steps
      ensures edgearrcp == old(edgearr)
      ensures r.Ok? <==> MaxgapShift(old(edgearr)).Ok?
      ensures r.Ok? ==> edgearr == MaxgapShift(old(edgearr)).value && steps == old(steps) + [Step.MaxgapPrep]
      ensures r.Err? ==> edgearr == old(edgearr) && steps == old(steps)
    {
      edgearrcp := edgearr;
      var shifted := MaxgapShift(edgearr);
      if shifted.Err? {
        return Err(shifted.msg);
      }
      edgearr := shifted.value;
      steps := steps + [Step.MaxgapPrep];
      r := Ok(());
    }

    method MaxgapClose(art: Artrace)
      modifies this`edgearr, this`steps
      ensures edgearr == art.closeSlits(old(edgearr), edgearrcp, ednum)
      ensures steps == old(steps) + [Step.MaxgapClose]
    {
      edgearr := art.closeSlits(edgearr, edgearrcp, ednum);
      steps := steps + [Step.MaxgapClose];
    }

    method FinalLeftRight(art: Artrace)
      modifies this`edgearr, this`lcnt, this`rcnt, this`steps
      ensures (edgearr, lcnt, rcnt) == art.finalLeftRight(old(edgearr), ednum, siglev)
      ensures steps == old(steps) + [Step.FinalLeftRight]
    {
      var res := art.finalLeftRight(edgearr, ednum, siglev);
      edgearr, lcnt, rcnt := res.0, res.1, res.2;
      steps := steps + [Step.FinalLeftRight];
    }

    method MslitTcrude(art: Artrace)
      modifies this`edgearr, this`tcDict, this`steps
      ensures edgearr == art.tcrude(old(edgearr), siglev, ednum).0
      ensures tcDict == Some(art.tcrude(old(edgearr), siglev, ednum).1)
      ensures steps == old(steps) + [Step.MslitTcrude]
    {
      var res := art.tcrude(edgearr, siglev, ednum);
      edgearr, tcDict := res.0, Some(res.1);
      steps := steps + [Step.MslitTcrude];
    }

    method MslitSync(art: Artrace)
      modifies this`edgearr, this`steps
      ensures edgearr == art.mslitSync(old(edgearr), tcDict, ednum)
      ensures steps == old(steps) + [Step.MslitSync]
    {
      edgearr := art.mslitSync(edgearr, tcDict, ednum);
      steps := steps + [Step.MslitSync];
    }

    /** `run`'s first stages: the edge map (from the user's single slit or
        from the image), the matching and the extra left/right edges.
        `user_set` is recorded once the edge map exists. */
    method FindEdges(art: Artrace) returns (r: Result<()>)
      modifies this`edgearr, this`siglev, this`steps, this`userSet, this`lcnt, this`rcnt
      ensures r.Ok? ==> userSet == (|settings.single| > 0)
      ensures r.Ok? ==> steps == old(steps) + PlanFind(|settings.single| > 0)
      ensures r.Err? ==> old(steps) <= steps <= old(steps) + PlanFind(|settings.single| > 0)
    {
      var ok: Result<()>;
      if |settings.single| > 0 {
        ok := EdgearrSingleSlit(art);
        if ok.Err? { return Err(ok.msg); }
        userSet := true;
      } else {
        EdgearrFromBinarr(art);
        userSet := false;
      }
      ok := MatchEdges(art);
      if ok.Err? { return Err(ok.msg); }
      AddLeftRight(art);
      r := Ok(());
    }

    /** `run`'s slit assignment, the optional gap closing after it, then the
        final left/right pass unless the user gave the slit. */
    method Assign(art: Artrace)
      modifies this`edgearr, this`steps, this`lcnt, this`rcnt
      ensures steps == old(steps) + PlanAssign(settings.maxgap.Some?, userSet)
    {
      AssignEdges(art);
      if settings.maxgap.Some? {
        MaxgapClose(art);
      }
      if !userSet {
        FinalLeftRight(art);
      }
    }

    /** `run`'s crude tracing and multi-slit synchronisation, for `armlsd`. */
    method Crude(art: Artrace, armlsd: bool)
      modifies this`edgearr, this`tcDict, this`steps
      ensures steps == old(steps) + (if armlsd then [Step.MslitTcrude, Step.MslitSync] else [])
    {
      if armlsd {
        MslitTcrude(art);
        MslitSync(art);
      }
    }

    /** `reset_edgearr_ednum`: not logged. */
    method ResetEdgearrEdnum() returns (r: Result<()>)
      modifies this`edgearr
      ensures r.Ok? <==> ResetEdnum(old(edgearr), ednum).Ok?
      ensures edgearr == if r.Ok? then ResetEdnum(old(edgearr), ednum).value else old(edgearr)
    {
      var res := ResetEdnum(edgearr, ednum);
      if res.Err? {
        return Err(res.msg);
      }
      edgearr := res.value;
      r := Ok(());
    }

    /** `set_lrminx`: the left range is stored before the right one is looked
        up, so a map without right edges still updates `lmin` and `lmax`. */
    method SetLrminx() returns (r: Result<()>)
      modifies this`ranges
      ensures r.Ok? <==> LabelRanges(edgearr).Ok?
      ensures r.Ok? ==> ranges == LabelRanges(edgearr).value
      ensures r.Err? ==> ranges.rmin == old(ranges.rmin) && ranges.rmax == old(ranges.rmax)
      ensures r.Err? ==> (ranges.lmin, ranges.lmax) ==
                         if LeftRange(edgearr).Some? then LeftRange(edgearr).value
                         else (old(ranges.lmin), old(ranges.lmax))
    {
      var left := LeftRange(edgearr);
      if left.None? {
        return Err("ValueError: zero-size array to reduction operation maximum");
      }
      ranges := ranges.(lmin := left.value.0, lmax := left.value.1);
      var right := RightRange(edgearr);
      if right.None? {
        return Err("ValueError: zero-size array to reduction operation minimum");
      }
      ranges := ranges.(rmin := right.value.0, rmax := right.value.1);
      r := Ok(());
    }

    method IgnoreOrders(art: Artrace)
      modifies this`edgearr, this`ranges, this`steps
      ensures (edgearr, ranges) == art.ignoreOrders(old(edgearr))
      ensures steps == old(steps) + [Step.IgnoreOrders]
    {
      var res := art.ignoreOrders(edgearr);
      edgearr, ranges := res.0, res.1;
      steps := steps + [Step.IgnoreOrders];
    }

    method FitEdges(art: Artrace, left: bool)
      modifies this`lcoeff, this`rcoeff, this`steps
      ensures left ==> lcoeff == art.fitEdges(edgearr, ranges.lmin, ranges.lmax, true) && rcoeff == old(rcoeff)
      ensures !left ==> rcoeff == art.fitEdges(edgearr, ranges.rmin, ranges.rmax, false) && lcoeff == old(lcoeff)
      ensures steps == old(steps) + [if left then FitEdgesLeft else FitEdgesRight]
    {
      if left {
        lcoeff := art.fitEdges(edgearr, ranges.lmin, ranges.lmax, true);
        steps := steps + [FitEdgesLeft];
      } else {
        rcoeff := art.fitEdges(edgearr, ranges.rmin, ranges.rmax, false);
        steps := steps + [FitEdgesRight];
      }
    }

    /** A longslit gets its single left and right trace from the first fit of
        each side; no stage is logged. */
    method ChkForLongslit(art: Artrace) returns (b: bool)
      requires EvalShape(art, nrow)
      modifies this`lcen, this`rcen
      ensures b <==> ranges.lmax == ranges.lmin && ranges.rmax == ranges.rmin
      ensures b ==> lcen == [art.evalFirst(lcoeff)] && rcen == [art.evalFirst(rcoeff)]
      ensures b ==> WellTraces(lcen, rcen, nrow)
      ensures !b ==> lcen == old(lcen) && rcen == old(rcen)
    {
      b := IsLongslit(ranges);
      if b {
        lcen := [art.evalFirst(lcoeff)];
        rcen := [art.evalFirst(rcoeff)];
      }
    }

    method Synchronize(art: Artrace)
      requires SyncShape(art, nrow)
      modifies this`lcent, this`rcent, this`lcoeff, this`rcoeff, this`steps
      ensures (lcent, rcent, lcoeff, rcoeff) == art.synchronize(edgearr, ranges, old(lcoeff), old(rcoeff))
      ensures WellTraces(lcent, rcent, nrow)
      ensures steps == old(steps) + [Step.Synchronize]
    {
      var res := art.synchronize(edgearr, ranges, lcoeff, rcoeff);
      lcent, rcent, lcoeff, rcoeff := res.0, res.1, res.2, res.3;
      steps := steps + [Step.Synchronize];
    }

    /** `_pca`: the library's PCA for types "order" and "pixel" (logged under
        the routine's name); otherwise the zero-free slits, unlogged. */
    method Pca(art: Artrace)
      requires PcaShape(art, nrow) && WellTraces(lcent, rcent, nrow)
      modifies this`lcen, this`rcen, this`extrapord, this`steps
      ensures WellTraces(lcen, rcen, nrow)
      ensures steps == old(steps) + PcaStep(settings.pcaType)
      ensures settings.pcaType == "order" ==>
        (lcen, rcen, extrapord) == art.pcaOrder(edgearr, lcent, rcent, lcoeff, rcoeff)
      ensures settings.pcaType == "pixel" ==>
        (lcen, rcen, extrapord) == art.pcaPixel(edgearr, lcent, rcent, lcoeff, rcoeff)
      ensures settings.pcaType != "order" && settings.pcaType != "pixel" ==>
        var ww := Kept(NoPcaMask(lcent, rcent));
        lcen == Pick(lcent, ww) && rcen == Pick(rcent, ww) &&
        |extrapord| == |ww| && forall k :: 0 <= k < |ww| ==> !extrapord[k]
    {
      if settings.pcaType == "order" {
        var res := art.pcaOrder(edgearr, lcent, rcent, lcoeff, rcoeff);
        lcen, rcen, extrapord := res.0, res.1, res.2;
        steps := steps + [PcaOrderSlitEdges];
      } else if settings.pcaType == "pixel" {
        var res := art.pcaPixel(edgearr, lcent, rcent, lcoeff, rcoeff);
        lcen, rcen, extrapord := res.0, res.1, res.2;
        steps := steps + [PcaPixelSlitEdges];
      } else {
        var ww := Kept(NoPcaMask(lcent, rcent));
        NoPcaKeeps(lcent, rcent, nrow);
        lcen, rcen := Pick(lcent, ww), Pick(rcent, ww);
        extrapord := seq(|ww|, _ => false);
      }
    }

    /** `trim_slits`: the loop marks the slits to drop, then the others are kept
        in order.  `extrapord` is not trimmed.  On an image without rows the
        first slit's minimum raises. */
    method TrimSlits(usefracpix: bool) returns (r: Result<()>)
      requires WellTraces(lcen, rcen, nrow)
      modifies this`lcen, this`rcen, this`steps
      ensures r.Err? <==> !Measurable(old(lcen), old(rcen), nrow)
      ensures r.Err? ==> lcen == old(lcen) && rcen == old(rcen) && steps == old(steps)
      ensures r.Ok? ==>
        var ww := Kept(TrimMask(old(lcen), old(rcen), nrow, ncol, settings.fracpix, usefracpix));
        lcen == Pick(old(lcen), ww) && rcen == Pick(old(rcen), ww) &&
        WellTraces(lcen, rcen, nrow) && steps == old(steps) + [Step.TrimSlits]
    {
      var l, rc := lcen, rcen;
      if !Measurable(l, rc, nrow) {
        return Err("ValueError: zero-size array to reduction operation minimum");
      }
      var fracpix := settings.fracpix;
      var mask := TrimMaskLoop(l, rc, nrow, ncol, fracpix, usefracpix);
      var wok := Kept(mask);
      TrimKeeps(l, rc, nrow, ncol, fracpix, usefracpix);
      lcen, rcen := Pick(l, wok), Pick(rc, wok);
      steps := steps + [Step.TrimSlits];
      r := Ok(());
    }

    /** `set_lrminx` followed by the left and the right fit. */
    method FitBoth(art: Artrace) returns (r: Result<()>)
      modifies this`ranges, this`lcoeff, this`rcoeff, this`steps
      ensures r.Ok? <==> LabelRanges(edgearr).Ok?
      ensures r.Ok? ==> ranges == LabelRanges(edgearr).value && steps == old(steps) + [FitEdgesLeft, FitEdgesRight]
      ensures r.Ok? ==> lcoeff == art.fitEdges(edgearr, ranges.lmin, ranges.lmax, true)
      ensures r.Ok? ==> rcoeff == art.fitEdges(edgearr, ranges.rmin, ranges.rmax, false)
      ensures r.Err? ==> steps == old(steps)
    {
      r := SetLrminx();
      if r.Err? {
        return;
      }
      FitEdges(art, true);
      FitEdges(art, false);
    }

    /** The synchronisation, the PCA and the trim that end a non-longslit run.
        Only the trim can fail, on an image without rows. */
    method SyncPcaTrim(art: Artrace, usefracpix: bool) returns (r: Result<()>)
      requires SyncShape(art, nrow) && PcaShape(art, nrow)
      modifies this`lcent, this`rcent, this`lcoeff, this`rcoeff, this`lcen, this`rcen, this`extrapord, this`steps
      ensures r.Ok? ==> steps == old(steps) + [Step.Synchronize] + PcaStep(settings.pcaType) + [Step.TrimSlits]
      ensures r.Ok? ==> WellTraces(lcen, rcen, nrow)
      ensures r.Err? ==> nrow == 0 && steps == old(steps) + [Step.Synchronize] + PcaStep(settings.pcaType)
    {
      Synchronize(art);
      Pca(art);
      r := TrimSlits(usefracpix);
    }

    /** The fits, synchronisation, PCA and trim that `add_user_slits` runs
        when asked to finish the tracing itself. */
    method FinishTracing(art: Artrace) returns (r: Result<()>)
      requires SyncShape(art, nrow) && PcaShape(art, nrow)
      modifies this`ranges, this`lcoeff, this`rcoeff,
               this`lcent, this`rcent, this`lcen, this`rcen, this`extrapord, this`steps
      ensures r.Ok? ==>
        steps == old(steps) + [FitEdgesLeft, FitEdgesRight, Step.Synchronize]
                 + PcaStep(settings.pcaType) + [Step.TrimSlits] &&
        WellTraces(lcen, rcen, nrow)
      ensures r.Err? ==> old(steps) <= steps
    {
      r := FitBoth(art);
      if r.Err? {
        return;
      }
      ghost var mid := steps;
      r := SyncPcaTrim(art, true);
      if r.Err? {
        PrefixExtends(old(steps), mid, [Step.Synchronize] + PcaStep(settings.pcaType));
        return;
      }
    }

    /** `add_user_slits`: reset the labels, add the user's edges and, when asked,
        run the fits, synchronisation, PCA and trim (with the width test); the
        stage is logged last. */
    method AddUserSlits(art: Artrace, userSlits: seq<(int, int)>, runToFinish: bool) returns (r: Result<()>)
      requires SyncShape(art, nrow) && PcaShape(art, nrow)
      modifies this`edgearr, this`ranges, this`lcoeff, this`rcoeff,
               this`lcent, this`rcent, this`lcen, this`rcen, this`extrapord, this`steps
      ensures r.Ok? ==> ResetEdnum(old(edgearr), ednum).Ok?
      ensures r.Ok? ==> edgearr == art.addUserEdges(ResetEdnum(old(edgearr), ednum).value, siglev, tcDict, userSlits)
      ensures !runToFinish ==> (r.Ok? <==> ResetEdnum(old(edgearr), ednum).Ok?) && ranges == old(ranges)
      ensures !runToFinish && r.Err? ==> steps == old(steps)
      ensures r.Ok? && !runToFinish ==> steps == old(steps) + [Step.AddUserSlits]
      ensures r.Ok? && runToFinish ==>
        steps == old(steps) + [FitEdgesLeft, FitEdgesRight, Step.Synchronize]
                 + PcaStep(settings.pcaType) + [Step.TrimSlits, Step.AddUserSlits] &&
        WellTraces(lcen, rcen, nrow)
      ensures r.Err? ==> old(steps) <= steps
    {
      r := ResetEdgearrEdnum();
      if r.Err? {
        return;
      }
      edgearr := art.addUserEdges(edgearr, siglev, tcDict, userSlits);
      if runToFinish {
        r := FinishTracing(art);
        if r.Err? {
          return;
        }
      }
      steps := steps + [Step.AddUserSlits];
    }

    /** `run` up to the crude tracing: detection, matching, the optional gap
        preparation, assignment and, for `armlsd`, the crude traces. */
    method Detect(art: Artrace, c: RunConfig) returns (r: Result<()>)
      requires c.single == (|settings.single| > 0) && c.maxgap == settings.maxgap.Some?
      modifies this`edgearr, this`edgearrcp, this`siglev, this`tcDict, this`steps,
               this`userSet, this`lcnt, this`rcnt
      ensures r.Ok? ==> userSet == c.single
      ensures r.Ok? ==> steps == old(steps) + PlanDetect(c)
      ensures r.Err? ==> old(steps) <= steps <= old(steps) + PlanDetect(c)
    {
      ghost var s0 := steps;
      ghost var prep := if c.maxgap then [Step.MaxgapPrep] else [];
      ghost var a := PlanAssign(c.maxgap, c.single);
      ghost var k := if c.armlsd then [Step.MslitTcrude, Step.MslitSync] else [];
      assert PlanDetect(c) == PlanFind(c.single) + (prep + a + k);
      r := FindEdges(art);
      if r.Err? {
        PrefixWithin(s0, steps, PlanFind(c.single), prep + a + k);
        return;
      }
      if c.maxgap {
        r := MaxgapPrep();
        if r.Err? {
          PrefixWithin(s0, steps, PlanFind(c.single), prep + a + k);
          return;
        }
      }
      ghost var s1 := steps;
      Assign(art);
      assert steps == s1 + a;
      Crude(art, c.armlsd);
      assert steps == s1 + a + k;
      DetectLog(c, s0, s1, steps);
    }

    /** `run`'s optional corrections: the user's slits (without finishing) and
        the removal of orders running off the detector. */
    method Adjust(art: Artrace, c: RunConfig, userSlits: Option<seq<(int, int)>>) returns (r: Result<()>)
      requires c.user == userSlits.Some?
      requires SyncShape(art, nrow) && PcaShape(art, nrow)
      modifies this`edgearr, this`ranges, this`lcoeff, this`rcoeff,
               this`lcent, this`rcent, this`lcen, this`rcen, this`extrapord, this`steps
      ensures r.Ok? ==> steps == old(steps) + PlanAdjust(c)
      ensures r.Err? ==> c.user && steps == old(steps)
    {
      r := Ok(());
      if userSlits.Some? {
        r := AddUserSlits(art, userSlits.value, false);
        if r.Err? {
          return;
        }
      }
      if c.ignore {
        IgnoreOrders(art);
      }
    }

    /** `run` from the fits on: a longslit stops after the fits and returns a
        single all-false order mask; otherwise the synchronisation, the PCA and
        the trim follow, the trim testing widths for `armlsd`. */
    method Conclude(art: Artrace, c: RunConfig) returns (r: Result<(Traces, Traces, seq<bool>)>)
      requires c.pcaType == settings.pcaType
      requires Shapes(art, nrow)
      modifies this`ranges, this`lcoeff, this`rcoeff,
               this`lcent, this`rcent, this`lcen, this`rcen, this`extrapord, this`steps
      ensures var longslit := ranges.lmax == ranges.lmin && ranges.rmax == ranges.rmin;
        (r.Ok? ==> steps == old(steps) + PlanFit(c, longslit)) &&
        (r.Ok? && longslit ==> r.value == (lcen, rcen, [false]) && |lcen| == 1) &&
        (r.Ok? && !longslit ==> r.value == (lcen, rcen, extrapord))
      ensures r.Ok? ==> WellTraces(lcen, rcen, nrow)
      ensures r.Err? ==> old(steps) <= steps <= old(steps) + PlanFit(c, false)
    {
      ghost var s0 := steps;
      var ok := FitBoth(art);
      if ok.Err? {
        return Err(ok.msg);
      }
      var longslit := ChkForLongslit(art);
      if longslit {
        return Ok((lcen, rcen, [false]));
      }
      ghost var s1 := steps;
      ok := SyncPcaTrim(art, c.armlsd);
      if ok.Err? {
        assert s0 + PlanFit(c, false) == s1 + ([Step.Synchronize] + PcaStep(c.pcaType) + [Step.TrimSlits]);
        return Err(ok.msg);
      }
      r := Ok((lcen, rcen, extrapord));
    }

    /** `run`: the whole tracing. The log grows by exactly the plan of the
        options given, and by a prefix of it when a stage fails. */
    method Run(art: Artrace, armlsd: bool, ignoreOrders: bool, userSlits: Option<seq<(int, int)>>)
      returns (r: Result<(Traces, Traces, seq<bool>)>)
      requires Shapes(art, nrow)
      modifies this`edgearr, this`edgearrcp, this`siglev, this`tcDict, this`steps,
               this`userSet, this`lcnt, this`rcnt, this`ranges, this`lcoeff, this`rcoeff,
               this`lcent, this`rcent, this`lcen, this`rcen, this`extrapord
      ensures var c := RunConfig(|settings.single| > 0, settings.maxgap.Some?, armlsd,
                                 userSlits.Some?, ignoreOrders, settings.pcaType);
        var longslit := ranges.lmax == ranges.lmin && ranges.rmax == ranges.rmin;
        (r.Ok? ==> steps == old(steps) + Plan(c, longslit)) &&
        (r.Err? ==> old(steps) <= steps <= old(steps) + Plan(c, false)) &&
        (r.Ok? && longslit ==> r.value == (lcen, rcen, [false]) && |lcen| == 1) &&
        (r.Ok? && !longslit ==> r.value == (lcen, rcen, extrapord))
      ensures r.Ok? ==> WellTraces(lcen, rcen, nrow)
      ensures r.Ok? ==> userSet == (|settings.single| > 0)
    {
      var c := RunConfig(|settings.single| > 0, settings.maxgap.Some?, armlsd,
                         userSlits.Some?, ignoreOrders, settings.pcaType);
      ghost var s0 := steps;
      var ok := Detect(art, c);
      if ok.Err? {
        RunLogEarlyErr(c, s0, steps);
        return Err(ok.msg);
      }
      ghost var s1 := steps;
      ok := Adjust(art, c, userSlits);
      if ok.Err? {
        RunLogEarlyErr(c, s0, steps);
        return Err(ok.msg);
      }
      ghost var s2 := steps;
      r := Conclude(art, c);
      if r.Err? {
        RunLogFitErr(c, s0, s2, steps);
        return;
      }
      RunLog(c, ranges.lmax == ranges.lmin && ranges.rmax == ranges.rmin, s0, s1, s2, steps);
    }
  }
}
