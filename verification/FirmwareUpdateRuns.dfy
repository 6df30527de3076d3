/** What every run of firmware update requests keeps, whatever the bootloader answers. */
module FirmwareUpdateRuns {
  import opened Bytes
  import opened FirmwareUpdate

  // ---- States: the edges, and in use exactly when not ready ------------------------------------

  ghost predicate Valid(s: Sys) {
    && |s.staging| == |s.ctx|
    && forall c | 0 <= c < |s.ctx| :: s.ctx[c].inUse <==> !s.ctx[c].state.Ready?
  }

  predicate Configured(cfg: Config) {
    cfg.bufSize > 0
  }

  /** The moves of one component that some request can make. */
  predicate Edge(from: State, to: State) {
    match from
    case Ready => to.Writing? || to.Trial? || to.Updated? || to.Rejected? || to.Failed?
    case Writing => to.Candidate? || to.Failed?
    case Candidate => to.Staged? || to.Trial? || to.Updated? || to.Failed?
    case Staged => to.Failed?
    case Trial => to.Updated? || to.Rejected? || to.Failed?
    case Failed => to.Ready?
    case Updated => to.Ready?
    case Rejected => false
  }

  /** The moves a given request makes. */
  predicate Move(q: Request, from: State, to: State) {
    match q
    case Start(_, _, _, _) => from.Ready? && to.Writing?
    case Finish(_) => from.Writing? && to.Candidate?
    case Cancel(_) => (from.Writing? || from.Candidate?) && to.Failed?
    case Install(_, _) => from.Candidate? && (to.Staged? || to.Trial? || to.Updated? || to.Failed?)
    case Accept(_, _) => (from.Ready? && (to.Trial? || to.Updated?)) || (from.Trial? && to.Updated?)
    case Reject(_, _, _) =>
      || (from.Staged? && to.Failed?)
      || ((from.Ready? || from.Trial?) && (to.Rejected? || to.Failed?))
      || (from.Ready? && to.Trial?)
    case Clean(_, _) => (from.Failed? || from.Updated?) && to.Ready?
    case Malformed => false
    case Write(_, _, _, _) => false
    case Query(_) => false
  }

  lemma MoveIsEdge(q: Request, from: State, to: State)
    requires Move(q, from, to)
    ensures Edge(from, to)
  {
  }

  /** Either the component keeps its context, or it makes a move of the request. */
  ghost predicate Moved(q: Request, x: Ctx, y: Ctx) {
    && (y == x || Move(q, x.state, y.state))
    && (y.inUse <==> !y.state.Ready?)
  }

  lemma {:induction false} AcceptScanMoves(ctx: seq<Ctx>, infos: nat -> Info, c: nat, d: nat)
    requires c <= |ctx| && d < |ctx|
    requires ctx[d].inUse <==> !ctx[d].state.Ready?
    ensures var ctx' := AcceptScan(ctx, infos, c).1;
            && (d < c ==> ctx'[d] == ctx[d])
            && (ctx'[d] == ctx[d] || (ctx[d].state.Ready? && ctx'[d] == ctx[d].(inUse := true, state := Trial)))
    decreases |ctx| - c
  {
    if c < |ctx| {
      if ctx[c].inUse {
        AcceptScanMoves(ctx, infos, c + 1, d);
      } else if infos(c).status == SUCCESS {
        AcceptScanMoves(ctx[c := Adopt(ctx[c], infos(c))], infos, c + 1, d);
      }
    }
  }

  lemma {:induction false} RejectScanMoves(ctx: seq<Ctx>, error: int, infos: nat -> Info, rejects: nat -> int,
                                           c: nat, status: int, found: bool, d: nat)
    requires c <= |ctx| && d < |ctx|
    requires ctx[d].inUse <==> !ctx[d].state.Ready?
    ensures var ctx' := RejectScan(ctx, error, infos, rejects, c, status, found).1;
            && (d < c ==> ctx'[d] == ctx[d])
            && Moved(Reject(error, infos, rejects), ctx[d], ctx'[d])
    decreases |ctx| - c
  {
    if c < |ctx| {
      var v := RejectOne(ctx[c], error, infos(c), rejects(c), status);
      if v.goOn {
        RejectScanMoves(ctx[c := v.ctx], error, infos, rejects, c + 1, v.status, found || v.found, d);
      }
    }
  }

  /** Every request moves every component along its edges or not at all, and keeps `in_use` in step with the
      state. */
  lemma RequestMoves(cfg: Config, s: Sys, q: Request, d: nat)
    requires Valid(s) && Configured(cfg) && d < |s.ctx|
    ensures var s' := Do(cfg, s, q).1;
            |s'.ctx| == |s.ctx| == |s'.staging| && Moved(q, s.ctx[d], s'.ctx[d])
  {
    match q
    case Accept(infos, _) => AcceptScanMoves(s.ctx, infos, 0, d);
    case Reject(error, infos, rejects) => RejectScanMoves(s.ctx, error, infos, rejects, 0, SUCCESS, false, d);
    case _ =>
  }

  lemma RequestKeepsValid(cfg: Config, s: Sys, q: Request)
    requires Valid(s) && Configured(cfg)
    ensures Valid(Do(cfg, s, q).1) && |Do(cfg, s, q).1.ctx| == |s.ctx|
  {
    var s' := Do(cfg, s, q).1;
    forall d: nat | d < |s.ctx|
      ensures |s'.ctx| == |s.ctx| == |s'.staging| && (s'.ctx[d].inUse <==> !s'.ctx[d].state.Ready?)
    {
      RequestMoves(cfg, s, q, d);
    }
    if |s.ctx| == 0 {
      NoComponents(cfg, s, q);
    }
  }

  lemma NoComponents(cfg: Config, s: Sys, q: Request)
    requires s.ctx == [] && s.staging == [] && Configured(cfg)
    ensures Do(cfg, s, q).1 == s
  {
  }

  /** A start that succeeds has initialised the staging area: the component was ready and not in use, and now
      it is being written over the initial content. */
  lemma StartInitialises(cfg: Config, s: Sys, q: Request)
    requires Valid(s) && Configured(cfg) && q.Start? && Do(cfg, s, q).0 == SUCCESS
    requires q.c < |s.ctx| ==> |q.init.content| == |s.staging[q.c]|
    ensures var s' := Do(cfg, s, q).1;
            && q.c < |s.ctx| && s.ctx[q.c].state.Ready? && q.init.status == SUCCESS
            && s'.ctx == s.ctx[q.c := s.ctx[q.c].(inUse := true, state := Writing)]
            && s'.staging == s.staging[q.c := q.init.content]
  {
  }

  // ---- Installation: all or none ---------------------------------------------------------------

  /** The status of a refused installation: a bad state, or what the bootloader said when it could not answer
      for a component that is not in use. */
  ghost predicate Refuses(ctx: seq<Ctx>, infos: nat -> Info, status: int) {
    && status != SUCCESS
    && (status == ERROR_BAD_STATE || exists c: nat :: c < |ctx| && !ctx[c].inUse && infos(c).status == status)
  }

  lemma {:induction false} RefusedByOne(ctx: seq<Ctx>, infos: nat -> Info, c: nat, d: nat)
    requires c <= d < |ctx|
    requires ctx[d].inUse && (ctx[d].state.Staged? || ctx[d].state.Rejected?)
    ensures Refuses(ctx, infos, Refusal(ctx, infos, c))
    decreases |ctx| - c
  {
    if c < d {
      RefusedByOne(ctx, infos, c + 1, d);
    }
  }

  /** A staged or rejected component refuses every installation. */
  lemma InstallRefused(cfg: Config, s: Sys, q: Request, d: nat)
    requires Valid(s) && Configured(cfg) && q.Install? && d < |s.ctx| && (s.ctx[d].state.Staged? || s.ctx[d].state.Rejected?)
    ensures Refuses(s.ctx, q.infos, Do(cfg, s, q).0) && Do(cfg, s, q).1 == s
  {
    RefusedByOne(s.ctx, q.infos, 0, d);
  }

  /** Installation changes nothing, or it moves every candidate to the one state that the bootloader's answer
      stands for, and changes no other component. */
  lemma InstallAllOrNone(cfg: Config, s: Sys, q: Request)
    requires Valid(s) && Configured(cfg) && q.Install?
    ensures var (status, s') := Do(cfg, s, q);
            && s'.staging == s.staging && |s'.ctx| == |s.ctx|
            && (s' != s ==>
                  && status == q.install
                  && (exists c | 0 <= c < |s.ctx| :: IsCandidate(s.ctx[c]))
                  && (forall c | 0 <= c < |s.ctx| && s.ctx[c].state.Candidate? ::
                        s'.ctx[c].state == InstalledState(cfg.trial, q.install))
                  && (forall c | 0 <= c < |s.ctx| && !s.ctx[c].state.Candidate? :: s'.ctx[c] == s.ctx[c]))
  {
    if Refusal(s.ctx, q.infos, 0) == SUCCESS && Candidates(s.ctx) != [] && q.install != ERROR_DEPENDENCY_NEEDED {
      var s' := Do(cfg, s, q).1;
      assert s'.ctx == InstallAll(cfg.trial, q.install, s.ctx);
      HasCandidate(s.ctx);
      forall c | 0 <= c < |s.ctx|
        ensures if s.ctx[c].state.Candidate? then s'.ctx[c].state == InstalledState(cfg.trial, q.install) else s'.ctx[c] == s.ctx[c]
      {
      }
    }
  }

  lemma HasCandidate(ctx: seq<Ctx>)
    requires Candidates(ctx) != []
    ensures exists c | 0 <= c < |ctx| :: IsCandidate(ctx[c])
  {
    CandidatesExact(ctx);
    assert Candidates(ctx)[0] in Candidates(ctx);
  }

  // ---- Accept and reject -----------------------------------------------------------------------

  lemma {:induction false} AcceptScanAdopts(ctx: seq<Ctx>, infos: nat -> Info, c: nat, d: nat)
    requires c <= d < |ctx| && AcceptScan(ctx, infos, c).0 == SUCCESS
    ensures AcceptScan(ctx, infos, c).1[d] == Adopt(ctx[d], infos(d)) && (!ctx[d].inUse ==> infos(d).status == SUCCESS)
    decreases |ctx| - c
  {
    if ctx[c].inUse {
      if c < d {
        AcceptScanAdopts(ctx, infos, c + 1, d);
      } else {
        AcceptScanDone(ctx, infos, c + 1, d);
      }
    } else {
      var ctx1 := ctx[c := Adopt(ctx[c], infos(c))];
      if c < d {
        AcceptScanAdopts(ctx1, infos, c + 1, d);
      } else {
        AcceptScanDone(ctx1, infos, c + 1, d);
      }
    }
  }

  lemma {:induction false} AcceptScanDone(ctx: seq<Ctx>, infos: nat -> Info, c: nat, d: nat)
    requires d < c <= |ctx|
    ensures AcceptScan(ctx, infos, c).1[d] == ctx[d]
    decreases |ctx| - c
  {
    if c < |ctx| {
      if ctx[c].inUse {
        AcceptScanDone(ctx, infos, c + 1, d);
      } else if infos(c).status == SUCCESS {
        AcceptScanDone(ctx[c := Adopt(ctx[c], infos(c))], infos, c + 1, d);
      }
    }
  }

  /** A successful accept leaves every component that was in trial, by its context or by the bootloader's word,
      updated, and changes no other. */
  lemma AcceptTakesAll(cfg: Config, s: Sys, q: Request, d: nat)
    requires Valid(s) && Configured(cfg) && q.Accept? && d < |s.ctx| && Do(cfg, s, q).0 == SUCCESS
    ensures var s' := Do(cfg, s, q).1;
            && |s'.ctx| == |s.ctx| && s'.staging == s.staging
            && s'.ctx[d] == if IsTrial(Adopt(s.ctx[d], q.infos(d))) then s.ctx[d].(inUse := true, state := Updated) else s.ctx[d]
  {
    AcceptScanAdopts(s.ctx, q.infos, 0, d);
  }

  /** Whether reject goes on behind a component: the bootloader answers what it is asked about it. */
  predicate Answered(x: Ctx, info: Info, reject: int) {
    && (!x.inUse ==> info.status == SUCCESS)
    && (x.inUse && x.state.Staged? ==> reject == SUCCESS)
    && (IsTrial(Adopt(x, info)) ==> reject == SUCCESS || reject == SUCCESS_REBOOT || reject == SUCCESS_RESTART)
  }

  /** The first component from `c` on for which it does not, or the number of components. */
  function StopsAt(ctx: seq<Ctx>, infos: nat -> Info, rejects: nat -> int, c: nat): (stop: nat)
    requires c <= |ctx|
    ensures c <= stop <= |ctx|
    ensures stop < |ctx| ==> !Answered(ctx[stop], infos(stop), rejects(stop))
    ensures forall d | c <= d < stop :: Answered(ctx[d], infos(d), rejects(d))
    decreases |ctx| - c
  {
    if c == |ctx| || !Answered(ctx[c], infos(c), rejects(c)) then c else StopsAt(ctx, infos, rejects, c + 1)
  }

  /** What becomes of a component that reject has dealt with: a staged one has failed, one in trial is rejected or
      failed as the bootloader says, or is kept in trial if the bootloader refuses; any other is as it was. */
  function Judged(x: Ctx, error: int, info: Info, reject: int): Ctx {
    if x.inUse && x.state.Staged? then Ctx(error, Failed, true)
    else if (!x.inUse && info.status != SUCCESS) || !IsTrial(Adopt(x, info)) then x
    else if reject == SUCCESS then Ctx(error, Failed, true)
    else if reject == SUCCESS_REBOOT || reject == SUCCESS_RESTART then Ctx(error, Rejected, true)
    else Adopt(x, info)
  }

  lemma {:induction false} RejectScanStops(ctx: seq<Ctx>, error: int, infos: nat -> Info, rejects: nat -> int,
                                           c: nat, status: int, found: bool, d: nat)
    requires c <= |ctx| && d < |ctx|
    ensures var ctx' := RejectScan(ctx, error, infos, rejects, c, status, found).1;
            ctx'[d] == if c <= d <= StopsAt(ctx, infos, rejects, c) then Judged(ctx[d], error, infos(d), rejects(d)) else ctx[d]
    decreases |ctx| - c
  {
    if c < |ctx| {
      var v := RejectOne(ctx[c], error, infos(c), rejects(c), status);
      assert v.goOn <==> Answered(ctx[c], infos(c), rejects(c));
      assert v.ctx == Judged(ctx[c], error, infos(c), rejects(c));
      if v.goOn {
        var ctx1 := ctx[c := v.ctx];
        RejectScanStops(ctx1, error, infos, rejects, c + 1, v.status, found || v.found, d);
        StopsBehind(ctx, ctx1, infos, rejects, c + 1);
      }
    }
  }

  lemma {:induction false} StopsBehind(ctx: seq<Ctx>, ctx1: seq<Ctx>, infos: nat -> Info, rejects: nat -> int, c: nat)
    requires |ctx1| == |ctx| && c <= |ctx| && forall d | c <= d < |ctx| :: ctx1[d] == ctx[d]
    ensures StopsAt(ctx1, infos, rejects, c) == StopsAt(ctx, infos, rejects, c)
    decreases |ctx| - c
  {
    if c < |ctx| {
      StopsBehind(ctx, ctx1, infos, rejects, c + 1);
    }
  }

  /** Reject on every component and for every bootloader: the components up to the first one about which the
      bootloader does not answer are dealt with, those behind it are untouched. */
  lemma RejectStops(cfg: Config, s: Sys, q: Request, d: nat)
    requires Valid(s) && Configured(cfg) && q.Reject? && d < |s.ctx|
    ensures var s' := Do(cfg, s, q).1;
            && |s'.ctx| == |s.ctx| && s'.staging == s.staging
            && s'.ctx[d] == if d <= StopsAt(s.ctx, q.infos, q.rejects, 0)
                            then Judged(s.ctx[d], q.error, q.infos(d), q.rejects(d)) else s.ctx[d]
  {
    RejectScanStops(s.ctx, q.error, q.infos, q.rejects, 0, SUCCESS, false, d);
  }

  // ---- Runs ------------------------------------------------------------------------------------

  /** The state at the end of a run of requests. */
  ghost function Final(cfg: Config, s: Sys, run: seq<Request>): Sys
    requires Valid(s) && Configured(cfg)
    decreases |run|
  {
    if run == [] then s
    else
      RequestKeepsValid(cfg, s, run[0]);
      Final(cfg, Do(cfg, s, run[0]).1, run[1..])
  }

  /** The state after power-up. */
  function Init(areas: seq<seq<Byte>>): Sys {
    Sys(seq(|areas|, _ => Ctx(0, Ready, false)), areas)
  }

  lemma {:induction false} RunKeepsValid(cfg: Config, s: Sys, run: seq<Request>)
    requires Valid(s) && Configured(cfg)
    ensures Valid(Final(cfg, s, run)) && |Final(cfg, s, run).ctx| == |s.ctx|
    decreases |run|
  {
    if run != [] {
      RequestKeepsValid(cfg, s, run[0]);
      RunKeepsValid(cfg, Do(cfg, s, run[0]).1, run[1..]);
    }
  }

  /** Once rejected, always rejected: in every later state, and every later installation fails and changes
      nothing. */
  lemma {:induction false} RejectedForGood(cfg: Config, s: Sys, run: seq<Request>, d: nat, q: Request)
    requires Valid(s) && Configured(cfg) && d < |s.ctx| && s.ctx[d].state.Rejected?
    ensures var s' := Final(cfg, s, run);
            && Valid(s') && |s'.ctx| == |s.ctx| && s'.ctx[d] == s.ctx[d]
            && (q.Install? ==> Refuses(s'.ctx, q.infos, Do(cfg, s', q).0) && Do(cfg, s', q).1 == s')
    decreases |run|
  {
    if run == [] {
      if q.Install? {
        InstallRefused(cfg, s, q, d);
      }
    } else {
      RequestKeepsValid(cfg, s, run[0]);
      RequestMoves(cfg, s, run[0], d);
      RejectedForGood(cfg, Do(cfg, s, run[0]).1, run[1..], d, q);
    }
  }

  // ---- Staging areas: what is installed is what was written ------------------------------------

  /** A write, whether it succeeds or fails, leaves everything outside the block alone. */
  lemma {:induction false} PiecesStayInBlock(area: seq<Byte>, offset: nat, block: seq<Byte>, size: nat, load: nat -> LoadAnswer, k: nat)
    requires size > 0 && k < |area| && !(offset <= k < offset + |block|)
    ensures LoadPieces(area, offset, block, size, load).1[k] == area[k]
    decreases |block|
  {
    if block != [] {
      var n := if size <= |block| then size else |block|;
      var (status, area1) := Load(area, offset, block[..n], load(offset));
      if status == SUCCESS {
        PiecesStayInBlock(area1, offset + n, block[n..], size, load, k);
      }
    }
  }

  /** Passing the block on in pieces has the effect of one store. */
  lemma {:induction false} PiecesAreOneStore(area: seq<Byte>, offset: nat, block: seq<Byte>, size: nat, load: nat -> LoadAnswer)
    requires size > 0
    ensures var (status, area') := LoadPieces(area, offset, block, size, load);
            && |area'| == |area|
            && (status == SUCCESS && block != [] ==> offset + |block| <= |area| && area' == Patch(area, offset, block))
            && (status == SUCCESS && block == [] ==> area' == area)
    decreases |block|
  {
    if block != [] {
      var n := if size <= |block| then size else |block|;
      var (status, area1) := Load(area, offset, block[..n], load(offset));
      if status == SUCCESS {
        PiecesAreOneStore(area1, offset + n, block[n..], size, load);
        PiecesJoin(area, offset, block, n);
      }
    }
  }

  lemma PiecesJoin(area: seq<Byte>, offset: nat, block: seq<Byte>, n: nat)
    requires n <= |block| && offset + n <= |area|
    ensures offset + |block| <= |area| ==> Patch(Patch(area, offset, block[..n]), offset + n, block[n..]) == Patch(area, offset, block)
    ensures n == |block| ==> Patch(area, offset, block[..n]) == Patch(area, offset, block)
  {
    assert block[..n] + block[n..] == block;
    if offset + |block| <= |area| {
      PatchTwice(area, offset, block[..n], block[n..]);
    }
    if n == |block| {
      assert block[..n] == block;
    }
  }

  /** The only requests that touch a staging area: start of a ready component, write in the writing state and
      clean of a failed or updated one. In every other case, and so from finish to installation, it is frozen. */
  lemma StagingFrozen(cfg: Config, s: Sys, q: Request, d: nat)
    requires Valid(s) && Configured(cfg) && d < |s.ctx|
    ensures var s' := Do(cfg, s, q).1;
            && |s'.staging| == |s.staging| && |s'.staging[d]| == |s.staging[d]|
            && (s'.staging[d] != s.staging[d] ==>
                  || (q.Start? && q.c == d && s.ctx[d].state.Ready?)
                  || (q.Write? && q.c == d && s.ctx[d].state.Writing?)
                  || (q.Clean? && q.c == d && (s.ctx[d].state.Failed? || s.ctx[d].state.Updated?)))
  {
  }

  datatype Image = Unknown | Known(bytes: seq<Byte>)

  /** What a client knows of the image it is writing to component `d`, from its own requests and their
      statuses: a successful start gives the initial content, each successful write lays its block over it, a
      write that fails midway leaves it unknown. */
  ghost function Tracked(cfg: Config, s: Sys, q: Request, d: nat, img: Image): Image
    requires |s.staging| == |s.ctx| && Configured(cfg) && d < |s.ctx|
  {
    var status := Do(cfg, s, q).0;
    if q.Start? && q.c == d && status == SUCCESS then Known(q.init.content)
    else if q.Write? && q.c == d && s.ctx[d].state.Writing? && |q.block| <= cfg.maxWrite then
      if status == SUCCESS && img.Known? && q.offset + |q.block| <= |img.bytes|
      then Known(Patch(img.bytes, q.offset, q.block))
      else if status == SUCCESS && q.block == [] then img
      else Unknown
    else if q.Clean? && q.c == d then Unknown
    else if q.Start? && q.c == d && s.ctx[d].state.Ready? then Unknown
    else img
  }

  /** The start requests name a content of the size of the area. */
  ghost predicate Sized(q: Request, s: Sys) {
    q.Start? && q.c < |s.staging| ==> |q.init.content| == |s.staging[q.c]|
  }

  lemma TrackedStep(cfg: Config, s: Sys, q: Request, d: nat, img: Image)
    requires Valid(s) && Configured(cfg) && d < |s.ctx| && Sized(q, s)
    requires img.Known? ==> s.staging[d] == img.bytes
    ensures var s' := Do(cfg, s, q).1;
            |s'.staging| == |s.staging| && (Tracked(cfg, s, q, d, img).Known? ==> s'.staging[d] == Tracked(cfg, s, q, d, img).bytes)
  {
    StagingFrozen(cfg, s, q, d);
    if q.Write? && q.c == d && s.ctx[d].state.Writing? && |q.block| <= cfg.maxWrite {
      PiecesAreOneStore(s.staging[d], q.offset, q.block, cfg.bufSize, q.load);
      if q.block == [] && q.offset <= |s.staging[d]| {
        assert Patch(s.staging[d], q.offset, q.block) == s.staging[d];
      }
    }
  }

  ghost function TrackedRun(cfg: Config, s: Sys, run: seq<Request>, d: nat, img: Image): Image
    requires Valid(s) && Configured(cfg) && d < |s.ctx|
    decreases |run|
  {
    if run == [] then img
    else
      RequestKeepsValid(cfg, s, run[0]);
      TrackedRun(cfg, Do(cfg, s, run[0]).1, run[1..], d, Tracked(cfg, s, run[0], d, img))
  }

  ghost predicate AllSized(run: seq<Request>, areas: seq<nat>) {
    forall i | 0 <= i < |run| && run[i].Start? && run[i].c < |areas| :: |run[i].init.content| == areas[run[i].c]
  }

  /** Over every run of requests on any components: as long as the image is known, the staging area holds
      exactly it, at every moment and so when it is installed. */
  lemma {:induction false} InstalledAsWritten(cfg: Config, s: Sys, run: seq<Request>, areas: seq<nat>, d: nat, img: Image)
    requires Valid(s) && Configured(cfg) && d < |s.ctx| && AllSized(run, areas)
    requires |areas| == |s.staging| && forall c | 0 <= c < |areas| :: |s.staging[c]| == areas[c]
    requires img.Known? ==> s.staging[d] == img.bytes
    ensures var s' := Final(cfg, s, run);
            && |s'.staging| == |s.staging|
            && (TrackedRun(cfg, s, run, d, img).Known? ==> s'.staging[d] == TrackedRun(cfg, s, run, d, img).bytes)
    decreases |run|
  {
    if run != [] {
      var s1 := Do(cfg, s, run[0]).1;
      RequestKeepsValid(cfg, s, run[0]);
      TrackedStep(cfg, s, run[0], d, img);
      forall c: nat | c < |areas|
        ensures |s1.staging[c]| == areas[c]
      {
        StagingFrozen(cfg, s, run[0], c);
      }
      assert forall i | 0 <= i < |run[1..]| :: run[1..][i] == run[i + 1];
      InstalledAsWritten(cfg, s1, run[1..], areas, d, Tracked(cfg, s, run[0], d, img));
    }
  }

  /** From power-up on: in every run a component is in use exactly when it is not ready, and whatever a client
      knows of the image it has written is what the staging area holds. */
  lemma FromPowerUp(cfg: Config, areas: seq<seq<Byte>>, run: seq<Request>, sizes: seq<nat>, d: nat)
    requires Configured(cfg) && d < |areas| && AllSized(run, sizes)
    requires |sizes| == |areas| && forall c | 0 <= c < |areas| :: |areas[c]| == sizes[c]
    ensures Valid(Init(areas)) && Valid(Final(cfg, Init(areas), run))
    ensures var s', img := Final(cfg, Init(areas), run), TrackedRun(cfg, Init(areas), run, d, Unknown);
            |s'.staging| == |areas| && (img.Known? ==> s'.staging[d] == img.bytes)
  {
    RunKeepsValid(cfg, Init(areas), run);
    InstalledAsWritten(cfg, Init(areas), run, sizes, d, Unknown);
  }
}
