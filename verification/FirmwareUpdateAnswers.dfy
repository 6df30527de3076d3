/** When each firmware update request succeeds, what it answers otherwise and what it leaves behind, in terms of states,
    statuses and the bootloader's answers alone. */
module FirmwareUpdateAnswers {
  import opened Bytes
  import opened FirmwareUpdate
  import opened FirmwareUpdateRuns

  // ---- Start -----------------------------------------------------------------------------------

  /** Start succeeds exactly for an existing component that is ready, in the service and by the bootloader's word,
      with a manifest that fits and a staging area that could be initialised. */
  lemma StartAnswers(cfg: Config, s: Sys, q: Request)
    requires Valid(s) && Configured(cfg) && q.Start?
    ensures var (status, s') := Do(cfg, s, q);
            && (status == SUCCESS <==>
                  && q.manifestSize <= cfg.maxManifest && q.c < |s.ctx| && s.ctx[q.c].state.Ready?
                  && q.info == Info(SUCCESS, Ready) && q.init.status == SUCCESS)
            && (q.manifestSize > cfg.maxManifest ==> status == ERROR_NOT_SUPPORTED && s' == s)
            && (q.manifestSize <= cfg.maxManifest && q.c >= |s.ctx| ==> status == ERROR_DOES_NOT_EXIST && s' == s)
            && (q.manifestSize <= cfg.maxManifest && q.c < |s.ctx| ==>
                  && (!s.ctx[q.c].state.Ready? ==> status == ERROR_BAD_STATE && s' == s)
                  && (s.ctx[q.c].state.Ready? && q.info.status != SUCCESS ==> status == q.info.status && s' == s)
                  && (s.ctx[q.c].state.Ready? && q.info.status == SUCCESS && !q.info.state.Ready? ==>
                        status == ERROR_BAD_STATE && s' == s)
                  && (s.ctx[q.c].state.Ready? && q.info == Info(SUCCESS, Ready) ==> status == q.init.status)
                  && (status != SUCCESS ==> s'.ctx == s.ctx)
                  && (status == SUCCESS ==> s'.ctx == s.ctx[q.c := Ctx(s.ctx[q.c].error, Writing, true)]))
  {
  }

  // ---- Write -----------------------------------------------------------------------------------

  /** Every piece of the block is stored, at its own offset. */
  ghost predicate AllStored(offset: nat, n: nat, size: nat, load: nat -> LoadAnswer)
    requires size > 0
  {
    forall k: nat | k * size < n :: load(offset + k * size).status == SUCCESS
  }

  lemma {:induction false} PiecesSucceed(area: seq<Byte>, offset: nat, block: seq<Byte>, size: nat, load: nat -> LoadAnswer)
    requires size > 0
    ensures LoadPieces(area, offset, block, size, load).0 == SUCCESS
       <==> block == [] || (offset + |block| <= |area| && AllStored(offset, |block|, size, load))
    decreases |block|
  {
    if block != [] {
      var n := if size <= |block| then size else |block|;
      var (status, area1) := Load(area, offset, block[..n], load(offset));
      assert load(offset + 0 * size) == load(offset);
      if status == SUCCESS {
        PiecesSucceed(area1, offset + n, block[n..], size, load);
        AllStoredSplit(offset, |block|, size, load);
      } else if AllStored(offset, |block|, size, load) {
        assert 0 * size < |block|;
        assert offset + n > |area|;
      }
    }
  }

  lemma AllStoredSplit(offset: nat, n: nat, size: nat, load: nat -> LoadAnswer)
    requires size > 0 && n > 0 && load(offset).status == SUCCESS
    ensures n <= size ==> AllStored(offset, n, size, load)
    ensures n > size ==> (AllStored(offset, n, size, load) <==> AllStored(offset + size, n - size, size, load))
  {
    if n <= size {
      forall k: nat | k * size < n
        ensures load(offset + k * size).status == SUCCESS
      {
        Later(k, size);
      }
    } else {
      if AllStored(offset + size, n - size, size, load) {
        forall k: nat | k * size < n
          ensures load(offset + k * size).status == SUCCESS
        {
          Later(k, size);
          if k > 0 {
            assert load(offset + size + (k - 1) * size) == load(offset + k * size);
          }
        }
      }
      if AllStored(offset, n, size, load) {
        forall k: nat | k * size < n - size
          ensures load(offset + size + k * size).status == SUCCESS
        {
          Later(k + 1, size);
          assert load(offset + (k + 1) * size).status == SUCCESS;
        }
      }
    }
  }

  /** Piece `k` starts one piece behind piece `k - 1`. */
  lemma Later(k: nat, size: nat)
    requires size > 0
    ensures k > 0 ==> k * size == (k - 1) * size + size && k * size >= size
    ensures k == 0 ==> k * size == 0
  {
  }

  /** Write succeeds exactly for a component being written, with a block that is not too large and that the
      bootloader stores inside the staging area piece by piece. */
  lemma WriteAnswers(cfg: Config, s: Sys, q: Request)
    requires Valid(s) && Configured(cfg) && q.Write?
    ensures var (status, s') := Do(cfg, s, q);
            && s'.ctx == s.ctx && |s'.staging| == |s.staging|
            && (forall d | 0 <= d < |s.ctx| && d != q.c :: s'.staging[d] == s.staging[d])
            && (status == SUCCESS <==>
                  && |q.block| <= cfg.maxWrite && q.c < |s.ctx| && s.ctx[q.c].state.Writing?
                  && (q.block == [] ||
                        (q.offset + |q.block| <= |s.staging[q.c]| && AllStored(q.offset, |q.block|, cfg.bufSize, q.load))))
            && (status == SUCCESS ==>
                  s'.staging[q.c] == if q.block == [] then s.staging[q.c] else Patch(s.staging[q.c], q.offset, q.block))
            && (|q.block| > cfg.maxWrite ==> status == ERROR_INVALID_ARGUMENT && s' == s)
            && (|q.block| <= cfg.maxWrite && q.c >= |s.ctx| ==> status == ERROR_DOES_NOT_EXIST && s' == s)
            && (|q.block| <= cfg.maxWrite && q.c < |s.ctx| && !s.ctx[q.c].state.Writing? ==> status == ERROR_BAD_STATE && s' == s)
  {
    if q.c < |s.ctx| {
      PiecesSucceed(s.staging[q.c], q.offset, q.block, cfg.bufSize, q.load);
      PiecesAreOneStore(s.staging[q.c], q.offset, q.block, cfg.bufSize, q.load);
    }
  }

  // ---- Finish, cancel, clean -------------------------------------------------------------------

  lemma FinishAnswers(cfg: Config, s: Sys, q: Request)
    requires Valid(s) && Configured(cfg) && q.Finish?
    ensures var (status, s') := Do(cfg, s, q);
            if q.c < |s.ctx| && s.ctx[q.c].state.Writing? then
              status == SUCCESS && s' == s.(ctx := s.ctx[q.c := Ctx(s.ctx[q.c].error, Candidate, true)])
            else status == (if q.c < |s.ctx| then ERROR_BAD_STATE else ERROR_DOES_NOT_EXIST) && s' == s
  {
  }

  lemma CancelAnswers(cfg: Config, s: Sys, q: Request)
    requires Valid(s) && Configured(cfg) && q.Cancel?
    ensures var (status, s') := Do(cfg, s, q);
            if q.c < |s.ctx| && (s.ctx[q.c].state.Writing? || s.ctx[q.c].state.Candidate?) then
              status == SUCCESS && s' == s.(ctx := s.ctx[q.c := Ctx(SUCCESS, Failed, true)])
            else status == (if q.c < |s.ctx| then ERROR_BAD_STATE else ERROR_DOES_NOT_EXIST) && s' == s
  {
  }

  lemma CleanAnswers(cfg: Config, s: Sys, q: Request)
    requires Valid(s) && Configured(cfg) && q.Clean?
    ensures var (status, s') := Do(cfg, s, q);
            if q.c < |s.ctx| && (s.ctx[q.c].state.Failed? || s.ctx[q.c].state.Updated?) then
              && status == q.clean.status
              && s'.ctx == (if q.clean.status == SUCCESS then s.ctx[q.c := Ctx(s.ctx[q.c].error, Ready, false)] else s.ctx)
              && (|q.clean.content| == |s.staging[q.c]| ==> s'.staging == s.staging[q.c := q.clean.content])
            else status == (if q.c < |s.ctx| then ERROR_BAD_STATE else ERROR_DOES_NOT_EXIST) && s' == s
  {
  }

  // ---- Install ---------------------------------------------------------------------------------

  /** The component does not stand in the way of an installation. */
  predicate Lets(x: Ctx, info: Info) {
    if x.inUse then !x.state.Staged? && !x.state.Rejected? else info.status == SUCCESS && !info.state.Trial?
  }

  lemma {:induction false} RefusalExact(ctx: seq<Ctx>, infos: nat -> Info, c: nat, d: nat)
    requires c <= d <= |ctx| && (forall k | c <= k < d :: Lets(ctx[k], infos(k)))
    requires d < |ctx| ==> !Lets(ctx[d], infos(d))
    ensures Refusal(ctx, infos, c)
         == (if d == |ctx| then SUCCESS
             else if !ctx[d].inUse && infos(d).status != SUCCESS then infos(d).status else ERROR_BAD_STATE)
    decreases |ctx| - c
  {
    if c < d {
      RefusalExact(ctx, infos, c + 1, d);
    }
  }

  /** The first component from `c` on that stands in the way, or the number of components. */
  function FirstInTheWay(ctx: seq<Ctx>, infos: nat -> Info, c: nat): (d: nat)
    requires c <= |ctx|
    ensures c <= d <= |ctx| && (forall k | c <= k < d :: Lets(ctx[k], infos(k)))
    ensures d < |ctx| ==> !Lets(ctx[d], infos(d))
    decreases |ctx| - c
  {
    if c == |ctx| || !Lets(ctx[c], infos(c)) then c else FirstInTheWay(ctx, infos, c + 1)
  }

  /** Installation reaches the bootloader exactly when no component in use is staged or rejected, the bootloader
      answers for every other one that it is not in trial, and there is a candidate. Otherwise nothing changes. */
  lemma InstallReaches(cfg: Config, s: Sys, q: Request)
    requires Valid(s) && Configured(cfg) && q.Install?
    ensures var (status, s') := Do(cfg, s, q);
            var d := FirstInTheWay(s.ctx, q.infos, 0);
            if d < |s.ctx| then
              s' == s && status == if !s.ctx[d].inUse && q.infos(d).status != SUCCESS then q.infos(d).status else ERROR_BAD_STATE
            else if exists c :: 0 <= c < |s.ctx| && s.ctx[c].state.Candidate? then status == q.install
            else s' == s && status == ERROR_BAD_STATE
  {
    RefusalExact(s.ctx, q.infos, 0, FirstInTheWay(s.ctx, q.infos, 0));
    SomeCandidate(s);
  }

  lemma SomeCandidate(s: Sys)
    requires Valid(s)
    ensures Candidates(s.ctx) != [] <==> exists c :: 0 <= c < |s.ctx| && s.ctx[c].state.Candidate?
  {
    CandidatesExact(s.ctx);
    if Candidates(s.ctx) != [] {
      assert Candidates(s.ctx)[0] in Candidates(s.ctx);
    }
    if c :| 0 <= c < |s.ctx| && s.ctx[c].state.Candidate? {
      assert c in Candidates(s.ctx);
    }
  }

  /** What becomes of every candidate, by the bootloader's answer. */
  lemma InstallMoves(cfg: Config, s: Sys, q: Request, c: nat)
    requires Valid(s) && Configured(cfg) && q.Install? && c < |s.ctx|
    requires forall k | 0 <= k < |s.ctx| :: Lets(s.ctx[k], q.infos(k))
    ensures var (status, s') := Do(cfg, s, q);
            var x := s.ctx[c];
            && |s'.ctx| == |s.ctx| && s'.staging == s.staging
            && (!x.state.Candidate? || q.install == ERROR_DEPENDENCY_NEEDED ==> s'.ctx[c] == x)
            && (x.state.Candidate? && q.install == SUCCESS ==>
                  s'.ctx[c] == if cfg.trial then Ctx(x.error, Trial, true) else Ctx(x.error, Updated, true))
            && (x.state.Candidate? && (q.install == SUCCESS_REBOOT || q.install == SUCCESS_RESTART) ==>
                  s'.ctx[c] == Ctx(x.error, Staged, true))
            && (x.state.Candidate?
                && q.install !in {SUCCESS, SUCCESS_REBOOT, SUCCESS_RESTART, ERROR_DEPENDENCY_NEEDED} ==>
                  s'.ctx[c] == Ctx(q.install, Failed, true))
  {
    RefusalExact(s.ctx, q.infos, 0, |s.ctx|);
    CandidatesExact(s.ctx);
    if s.ctx[c].state.Candidate? {
      assert c in Candidates(s.ctx);
    }
  }

  // ---- Accept ----------------------------------------------------------------------------------

  lemma {:induction false} AcceptScanAnswers(ctx: seq<Ctx>, infos: nat -> Info, c: nat, d: nat)
    requires c <= d <= |ctx| && (forall k | c <= k < d && !ctx[k].inUse :: infos(k).status == SUCCESS)
    requires d < |ctx| ==> !ctx[d].inUse && infos(d).status != SUCCESS
    ensures AcceptScan(ctx, infos, c).0 == if d < |ctx| then infos(d).status else SUCCESS
    ensures forall k | c <= k < d :: AcceptScan(ctx, infos, c).1[k] == Adopt(ctx[k], infos(k))
    ensures forall k | 0 <= k < |ctx| && !(c <= k < d) :: AcceptScan(ctx, infos, c).1[k] == ctx[k]
    decreases |ctx| - c
  {
    if c < d {
      var ctx1 := if ctx[c].inUse then ctx else ctx[c := Adopt(ctx[c], infos(c))];
      AcceptScanAnswers(ctx1, infos, c + 1, d);
    }
  }

  /** The first component from `c` on that is not in use and for which the bootloader has no answer. */
  function FirstSilent(ctx: seq<Ctx>, infos: nat -> Info, c: nat): (d: nat)
    requires c <= |ctx|
    ensures c <= d <= |ctx| && (forall k | c <= k < d && !ctx[k].inUse :: infos(k).status == SUCCESS)
    ensures d < |ctx| ==> !ctx[d].inUse && infos(d).status != SUCCESS
    decreases |ctx| - c
  {
    if c == |ctx| || (!ctx[c].inUse && infos(c).status != SUCCESS) then c else FirstSilent(ctx, infos, c + 1)
  }

  /** The component is in trial, by its context or by the bootloader's word. */
  predicate OnTrial(x: Ctx, info: Info) {
    x.state.Trial? || (!x.inUse && info.state.Trial?)
  }

  /** Accept goes through the components up to the first one for which the bootloader has no answer. It
      succeeds exactly if there is none such, some component is in trial and the bootloader accepts. Components found
      in trial on the way are taken into use, and updated on success; all others are kept. */
  lemma AcceptAnswers(cfg: Config, s: Sys, q: Request, k: nat)
    requires Valid(s) && Configured(cfg) && q.Accept? && k < |s.ctx|
    ensures var (status, s') := Do(cfg, s, q);
            var d := FirstSilent(s.ctx, q.infos, 0);
            var some := exists i :: 0 <= i < |s.ctx| && OnTrial(s.ctx[i], q.infos(i));
            && |s'.ctx| == |s.ctx| && s'.staging == s.staging
            && status == (if !cfg.trial then ERROR_NOT_SUPPORTED
                          else if d < |s.ctx| then q.infos(d).status
                          else if !some then ERROR_BAD_STATE
                          else q.accept)
            && s'.ctx[k] == (if !cfg.trial || k >= d || !OnTrial(s.ctx[k], q.infos(k)) then s.ctx[k]
                             else if d == |s.ctx| && q.accept == SUCCESS then Ctx(s.ctx[k].error, Updated, true)
                             else Ctx(s.ctx[k].error, Trial, true))
  {
    var d := FirstSilent(s.ctx, q.infos, 0);
    AcceptScanAnswers(s.ctx, q.infos, 0, d);
    if cfg.trial && d == |s.ctx| {
      var ctx := AcceptScan(s.ctx, q.infos, 0).1;
      forall i | 0 <= i < |s.ctx|
        ensures IsTrial(ctx[i]) <==> OnTrial(s.ctx[i], q.infos(i))
      {
      }
    }
  }

  // ---- Reject ----------------------------------------------------------------------------------

  /** Something for reject to do. */
  predicate Concerned(x: Ctx, info: Info) {
    x.state.Staged? || OnTrial(x, info)
  }

  ghost predicate AnyConcerned(ctx: seq<Ctx>, infos: nat -> Info, c: nat) {
    exists i :: c <= i < |ctx| && Concerned(ctx[i], infos(i))
  }

  lemma AnySplit(ctx: seq<Ctx>, ctx1: seq<Ctx>, infos: nat -> Info, c: nat)
    requires c < |ctx| == |ctx1| && forall i | c < i < |ctx| :: ctx1[i] == ctx[i]
    ensures AnyConcerned(ctx, infos, c) <==> Concerned(ctx[c], infos(c)) || AnyConcerned(ctx1, infos, c + 1)
  {
    if i :| c <= i < |ctx| && Concerned(ctx[i], infos(i)) {
      assert i > c ==> Concerned(ctx1[i], infos(i));
    }
    if i :| c + 1 <= i < |ctx1| && Concerned(ctx1[i], infos(i)) {
      assert Concerned(ctx[i], infos(i));
    }
  }

  lemma {:induction false} RejectScanAnswers(ctx: seq<Ctx>, error: int, infos: nat -> Info, rejects: nat -> int,
                                             c: nat, status: int, found: bool)
    requires c <= |ctx| && (forall i | c <= i < |ctx| :: ctx[i].inUse <==> !ctx[i].state.Ready?)
    requires status in {SUCCESS, SUCCESS_REBOOT, SUCCESS_RESTART}
    ensures var r, d := RejectScan(ctx, error, infos, rejects, c, status, found).0, StopsAt(ctx, infos, rejects, c);
            if d < |ctx| then r == if !ctx[d].inUse && infos(d).status != SUCCESS then infos(d).status else rejects(d)
            else if found || AnyConcerned(ctx, infos, c) then r in {SUCCESS, SUCCESS_REBOOT, SUCCESS_RESTART}
            else r == ERROR_BAD_STATE
    decreases |ctx| - c
  {
    if c < |ctx| {
      var v := RejectOne(ctx[c], error, infos(c), rejects(c), status);
      RejectOneAnswers(ctx[c], error, infos(c), rejects(c), status);
      if v.goOn {
        var ctx1 := ctx[c := v.ctx];
        RejectScanAnswers(ctx1, error, infos, rejects, c + 1, v.status, found || v.found);
        StopsBehind(ctx, ctx1, infos, rejects, c + 1);
        AnySplit(ctx, ctx1, infos, c);
      }
    }
  }

  lemma RejectOneAnswers(x: Ctx, error: int, info: Info, reject: int, status: int)
    requires (x.inUse <==> !x.state.Ready?) && status in {SUCCESS, SUCCESS_REBOOT, SUCCESS_RESTART}
    ensures var v := RejectOne(x, error, info, reject, status);
            && (v.goOn <==> Answered(x, info, reject))
            && (v.goOn ==> (v.found <==> Concerned(x, info)) && v.status in {SUCCESS, SUCCESS_REBOOT, SUCCESS_RESTART})
            && (!v.goOn ==> v.status == if !x.inUse && info.status != SUCCESS then info.status else reject)
  {
  }

  /** The status of reject: the failing answer if the bootloader does not answer, otherwise a bad state exactly if
      there was nothing to reject. */
  lemma RejectAnswers(cfg: Config, s: Sys, q: Request)
    requires Valid(s) && Configured(cfg) && q.Reject?
    ensures var status, d := Do(cfg, s, q).0, StopsAt(s.ctx, q.infos, q.rejects, 0);
            if d < |s.ctx| then status == if !s.ctx[d].inUse && q.infos(d).status != SUCCESS then q.infos(d).status else q.rejects(d)
            else if AnyConcerned(s.ctx, q.infos, 0) then status in {SUCCESS, SUCCESS_REBOOT, SUCCESS_RESTART}
            else status == ERROR_BAD_STATE
  {
    RejectScanAnswers(s.ctx, q.error, q.infos, q.rejects, 0, SUCCESS, false);
  }

  // ---- Query and malformed requests ------------------------------------------------------------

  lemma QueryAnswers(cfg: Config, s: Sys, q: Request)
    requires Valid(s) && Configured(cfg) && (q.Query? || q.Malformed?)
    ensures Do(cfg, s, q).1 == s
    ensures q.Malformed? ==> Do(cfg, s, q).0 == ERROR_PROGRAMMER_ERROR
    ensures q.Query? && q.c >= |s.ctx| ==> Do(cfg, s, q).0 == ERROR_DOES_NOT_EXIST
  {
  }
}
