/** Request manager of the firmware update service
    (src/secure_fw/partitions/firmware_update/tfm_fwu_req_mngr.c), as functions of the component contexts, the
    staging areas and the answers of the bootloader. */
module FirmwareUpdate {
  import opened Bytes

  const SUCCESS := 0
  const SUCCESS_REBOOT := 1
  const SUCCESS_RESTART := 2
  const ERROR_NOT_SUPPORTED := -134
  const ERROR_INVALID_ARGUMENT := -135
  const ERROR_BAD_STATE := -137
  const ERROR_DOES_NOT_EXIST := -140
  const ERROR_PROGRAMMER_ERROR := -129
  const ERROR_DEPENDENCY_NEEDED := -156

  datatype State = Ready | Writing | Candidate | Staged | Failed | Trial | Rejected | Updated

  /** `tfm_fwu_ctx_t`. */
  datatype Ctx = Ctx(error: int, state: State, inUse: bool)

  /** What the service and the bootloader keep: contexts and staging areas, by component. */
  datatype Sys = Sys(ctx: seq<Ctx>, staging: seq<seq<Byte>>)

  /** Build options: the trial state, the block buffer, the largest write and the largest manifest. */
  datatype Config = Config(trial: bool, bufSize: nat, maxWrite: nat, maxManifest: nat)

  // ---- Answers of the bootloader ---------------------------------------------------------------

  /** get_image_info: a status, and the state it reports. */
  datatype Info = Info(status: int, state: State)

  /** A load that fails may leave anything where it was to store. */
  datatype LoadAnswer = LoadAnswer(status: int, rubbish: seq<Byte>)

  /** Initialising or cleaning a staging area: a status, and what the area then holds. */
  datatype AreaAnswer = AreaAnswer(status: int, content: seq<Byte>)

  datatype Request =
    | Malformed
    | Start(c: nat, manifestSize: nat, info: Info, init: AreaAnswer)
    | Write(c: nat, offset: nat, block: seq<Byte>, load: nat -> LoadAnswer)
    | Finish(c: nat)
    | Install(infos: nat -> Info, install: int)
    | Query(c: nat)
    | Accept(infos: nat -> Info, accept: int)
    | Reject(error: int, infos: nat -> Info, rejects: nat -> int)
    | Cancel(c: nat)
    | Clean(c: nat, clean: AreaAnswer)

  // ---- Requests on one component ---------------------------------------------------------------

  function WithArea(s: Sys, c: nat, area: seq<Byte>): Sys
    requires c < |s.staging|
  {
    if |area| == |s.staging[c]| then s.(staging := s.staging[c := area]) else s
  }

  function DoStart(cfg: Config, s: Sys, c: nat, manifestSize: nat, info: Info, init: AreaAnswer): (int, Sys)
    requires |s.staging| == |s.ctx|
  {
    if manifestSize > cfg.maxManifest then (ERROR_NOT_SUPPORTED, s)
    else if c >= |s.ctx| then (ERROR_DOES_NOT_EXIST, s)
    else if s.ctx[c].inUse then (if s.ctx[c].state.Ready? then SUCCESS else ERROR_BAD_STATE, s)
    else if info.status != SUCCESS then (info.status, s)
    else if !info.state.Ready? then (ERROR_BAD_STATE, s)
    else
      var s' := WithArea(s, c, init.content);
      if init.status != SUCCESS then (init.status, s')
      else (SUCCESS, s'.(ctx := s.ctx[c := s.ctx[c].(inUse := true, state := Writing)]))
  }

  /** One load_image call: it stores the data, or fails. A load that does not fit the area fails. */
  function Load(area: seq<Byte>, offset: nat, data: seq<Byte>, a: LoadAnswer): (r: (int, seq<Byte>))
    ensures |r.1| == |area|
  {
    if offset + |data| > |area| then (if a.status != SUCCESS then a.status else ERROR_INVALID_ARGUMENT, area)
    else if a.status == SUCCESS then (SUCCESS, Patch(area, offset, data))
    else (a.status, if |a.rubbish| == |data| then Patch(area, offset, a.rubbish) else area)
  }

  /** The block is passed on in pieces of the buffer size; the first failing piece ends the request. */
  function LoadPieces(area: seq<Byte>, offset: nat, block: seq<Byte>, size: nat, load: nat -> LoadAnswer): (r: (int, seq<Byte>))
    requires size > 0
    ensures |r.1| == |area|
    decreases |block|
  {
    if block == [] then (SUCCESS, area)
    else
      var n := if size <= |block| then size else |block|;
      var (status, area') := Load(area, offset, block[..n], load(offset));
      if status != SUCCESS then (status, area') else LoadPieces(area', offset + n, block[n..], size, load)
  }

  function DoWrite(cfg: Config, s: Sys, c: nat, offset: nat, block: seq<Byte>, load: nat -> LoadAnswer): (int, Sys)
    requires |s.staging| == |s.ctx| && cfg.bufSize > 0
  {
    if |block| > cfg.maxWrite then (ERROR_INVALID_ARGUMENT, s)
    else if c >= |s.ctx| then (ERROR_DOES_NOT_EXIST, s)
    else if !s.ctx[c].inUse || !s.ctx[c].state.Writing? then (ERROR_BAD_STATE, s)
    else
      var r := LoadPieces(s.staging[c], offset, block, cfg.bufSize, load);
      (r.0, s.(staging := s.staging[c := r.1]))
  }

  function DoFinish(s: Sys, c: nat): (int, Sys) {
    if c >= |s.ctx| then (ERROR_DOES_NOT_EXIST, s)
    else if !s.ctx[c].inUse || !s.ctx[c].state.Writing? then (ERROR_BAD_STATE, s)
    else (SUCCESS, s.(ctx := s.ctx[c := s.ctx[c].(state := Candidate)]))
  }

  function DoCancel(s: Sys, c: nat): (int, Sys) {
    if c >= |s.ctx| then (ERROR_DOES_NOT_EXIST, s)
    else if s.ctx[c].inUse && (s.ctx[c].state.Writing? || s.ctx[c].state.Candidate?)
    then (SUCCESS, s.(ctx := s.ctx[c := s.ctx[c].(state := Failed, error := SUCCESS)]))
    else (ERROR_BAD_STATE, s)
  }

  function DoClean(s: Sys, c: nat, clean: AreaAnswer): (int, Sys)
    requires |s.staging| == |s.ctx|
  {
    if c >= |s.ctx| then (ERROR_DOES_NOT_EXIST, s)
    else if s.ctx[c].inUse && (s.ctx[c].state.Failed? || s.ctx[c].state.Updated?) then
      var s' := WithArea(s, c, clean.content);
      if clean.status != SUCCESS then (clean.status, s')
      else (SUCCESS, s'.(ctx := s.ctx[c := s.ctx[c].(state := Ready, inUse := false)]))
    else (ERROR_BAD_STATE, s)
  }

  // ---- Requests on all components --------------------------------------------------------------

  predicate IsCandidate(x: Ctx) {
    x.inUse && x.state.Candidate?
  }

  /** Why installation is refused by the components from `c` on, or SUCCESS. */
  function Refusal(ctx: seq<Ctx>, infos: nat -> Info, c: nat): int
    decreases |ctx| - c
  {
    if c >= |ctx| then SUCCESS
    else if ctx[c].inUse then
      if ctx[c].state.Staged? || ctx[c].state.Rejected? then ERROR_BAD_STATE else Refusal(ctx, infos, c + 1)
    else if infos(c).status != SUCCESS then infos(c).status
    else if infos(c).state.Trial? then ERROR_BAD_STATE
    else Refusal(ctx, infos, c + 1)
  }

  function Candidates(ctx: seq<Ctx>): seq<nat> {
    if ctx == [] then []
    else
      var n := |ctx| - 1;
      Candidates(ctx[..n]) + if IsCandidate(ctx[n]) then [n] else []
  }

  /** The list is exactly the set of candidates, in strictly increasing order. */
  lemma {:induction false} CandidatesExact(ctx: seq<Ctx>)
    ensures forall c: nat :: c in Candidates(ctx) <==> c < |ctx| && IsCandidate(ctx[c])
    ensures forall i, j | 0 <= i < j < |Candidates(ctx)| :: Candidates(ctx)[i] < Candidates(ctx)[j]
    decreases |ctx|
  {
    if ctx != [] {
      var n := |ctx| - 1;
      CandidatesExact(ctx[..n]);
      var rest := Candidates(ctx[..n]);
      assert forall i | 0 <= i < |rest| :: rest[i] in rest;
    }
  }

  /** The state all candidates move to when the bootloader answers `status`. */
  function InstalledState(trial: bool, status: int): State {
    if status == SUCCESS then (if trial then Trial else Updated)
    else if status != SUCCESS_REBOOT && status != SUCCESS_RESTART then Failed
    else Staged
  }

  function Installed(trial: bool, status: int, x: Ctx): Ctx {
    var state := InstalledState(trial, status);
    x.(state := state, error := if state.Failed? then status else x.error)
  }

  function InstallAll(trial: bool, status: int, ctx: seq<Ctx>): (r: seq<Ctx>)
    ensures |r| == |ctx|
    ensures forall c | 0 <= c < |ctx| :: r[c] == if IsCandidate(ctx[c]) then Installed(trial, status, ctx[c]) else ctx[c]
  {
    seq(|ctx|, c requires 0 <= c < |ctx| => if IsCandidate(ctx[c]) then Installed(trial, status, ctx[c]) else ctx[c])
  }

  function DoInstall(cfg: Config, s: Sys, infos: nat -> Info, install: int): (int, Sys) {
    var refusal := Refusal(s.ctx, infos, 0);
    if refusal != SUCCESS then (refusal, s)
    else if Candidates(s.ctx) == [] then (ERROR_BAD_STATE, s)
    else if install == ERROR_DEPENDENCY_NEEDED then (install, s)
    else (install, s.(ctx := InstallAll(cfg.trial, install, s.ctx)))
  }

  /** Components found in trial by the bootloader are taken into use. */
  function Adopt(x: Ctx, info: Info): Ctx {
    if !x.inUse && info.state.Trial? then x.(inUse := true, state := Trial) else x
  }

  /** The scan of accept from component `c` on: a status, and the contexts it leaves. */
  function AcceptScan(ctx: seq<Ctx>, infos: nat -> Info, c: nat): (r: (int, seq<Ctx>))
    ensures |r.1| == |ctx|
    decreases |ctx| - c
  {
    if c >= |ctx| then (SUCCESS, ctx)
    else if ctx[c].inUse then AcceptScan(ctx, infos, c + 1)
    else if infos(c).status != SUCCESS then (infos(c).status, ctx)
    else AcceptScan(ctx[c := Adopt(ctx[c], infos(c))], infos, c + 1)
  }

  predicate IsTrial(x: Ctx) {
    x.inUse && x.state.Trial?
  }

  function AcceptAll(ctx: seq<Ctx>): (r: seq<Ctx>)
    ensures |r| == |ctx|
    ensures forall c | 0 <= c < |ctx| :: r[c] == if IsTrial(ctx[c]) then ctx[c].(state := Updated) else ctx[c]
  {
    seq(|ctx|, c requires 0 <= c < |ctx| => if IsTrial(ctx[c]) then ctx[c].(state := Updated) else ctx[c])
  }

  function DoAccept(cfg: Config, s: Sys, infos: nat -> Info, accept: int): (int, Sys) {
    if !cfg.trial then (ERROR_NOT_SUPPORTED, s)
    else
      var (status, ctx) := AcceptScan(s.ctx, infos, 0);
      if status != SUCCESS then (status, s.(ctx := ctx))
      else if forall c | 0 <= c < |ctx| :: !IsTrial(ctx[c]) then (ERROR_BAD_STATE, s.(ctx := ctx))
      else if accept != SUCCESS then (accept, s.(ctx := ctx))
      else (accept, s.(ctx := AcceptAll(ctx)))
  }

  /** What reject does to one component: whether it goes on, its status (the old one if the component asks
      nothing of the bootloader), whether a staged or trial image was found, and the new context. */
  datatype Verdict = Verdict(goOn: bool, status: int, found: bool, ctx: Ctx)

  function RejectOne(x: Ctx, error: int, info: Info, reject: int, status: int): Verdict {
    if x.inUse && x.state.Staged? then
      Verdict(reject == SUCCESS, reject, true, x.(state := Failed, error := error))
    else if x.inUse && !x.state.Trial? then Verdict(true, status, false, x)
    else if !x.inUse && info.status != SUCCESS then Verdict(false, info.status, false, x)
    else if !x.inUse && !info.state.Trial? then Verdict(true, info.status, false, x)
    else
      var y := x.(inUse := true, state := Trial);
      if reject == SUCCESS_REBOOT || reject == SUCCESS_RESTART
      then Verdict(true, reject, true, y.(state := Rejected, error := error))
      else if reject == SUCCESS then Verdict(true, reject, true, y.(state := Failed, error := error))
      else Verdict(false, reject, true, y)
  }

  function RejectScan(ctx: seq<Ctx>, error: int, infos: nat -> Info, rejects: nat -> int, c: nat, status: int, found: bool)
    : (r: (int, seq<Ctx>))
    ensures |r.1| == |ctx|
    decreases |ctx| - c
  {
    if c >= |ctx| then (if found then status else ERROR_BAD_STATE, ctx)
    else
      var v := RejectOne(ctx[c], error, infos(c), rejects(c), status);
      var ctx' := ctx[c := v.ctx];
      if !v.goOn then (v.status, ctx')
      else RejectScan(ctx', error, infos, rejects, c + 1, v.status, found || v.found)
  }

  function DoReject(s: Sys, error: int, infos: nat -> Info, rejects: nat -> int): (int, Sys) {
    var r := RejectScan(s.ctx, error, infos, rejects, 0, SUCCESS, false);
    (r.0, s.(ctx := r.1))
  }

  /** One request. */
  function Do(cfg: Config, s: Sys, q: Request): (int, Sys)
    requires |s.staging| == |s.ctx| && cfg.bufSize > 0
  {
    match q
    case Malformed => (ERROR_PROGRAMMER_ERROR, s)
    case Start(c, manifestSize, info, init) => DoStart(cfg, s, c, manifestSize, info, init)
    case Write(c, offset, block, load) => DoWrite(cfg, s, c, offset, block, load)
    case Finish(c) => DoFinish(s, c)
    case Install(infos, install) => DoInstall(cfg, s, infos, install)
    case Query(c) => (if c < |s.ctx| then SUCCESS else ERROR_DOES_NOT_EXIST, s)
    case Accept(infos, accept) => DoAccept(cfg, s, infos, accept)
    case Reject(error, infos, rejects) => DoReject(s, error, infos, rejects)
    case Cancel(c) => DoCancel(s, c)
    case Clean(c, clean) => DoClean(s, c, clean)
  }
}
