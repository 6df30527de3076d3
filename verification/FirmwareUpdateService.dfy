/** The request manager as the code runs it: contexts in an array changed in place, loops over the components and
    over the pieces of a block. Each method is proved to do what `FirmwareUpdate` says. */
module FirmwareUpdateService {
  import opened Bytes
  import opened FirmwareUpdate

  class UpdateService {
    const cfg: Config
    const ctx: array<Ctx>
    const staging: array<seq<Byte>>     // kept by the bootloader

    constructor (cfg: Config, areas: seq<seq<Byte>>)
      requires cfg.bufSize > 0
      ensures Shaped() && fresh(ctx) && fresh(staging) && this.cfg == cfg
      ensures staging[..] == areas && forall c | 0 <= c < ctx.Length :: ctx[c] == Ctx(0, Ready, false)
    {
      this.cfg := cfg;
      ctx := new Ctx[|areas|](_ => Ctx(0, Ready, false));
      staging := new seq<Byte>[|areas|](i requires 0 <= i < |areas| => areas[i]);
      new;
      assert staging[..] == areas;
    }

    ghost predicate Shaped() {
      ctx.Length == staging.Length && cfg.bufSize > 0
    }

    ghost function Now(): Sys
      reads ctx, staging
    {
      Sys(ctx[..], staging[..])
    }

    /** The bootloader prepares or cleans a staging area. */
    method ChangeArea(c: nat, a: AreaAnswer) returns (status: int)
      requires Shaped() && c < ctx.Length
      modifies staging
      ensures status == a.status && Now() == WithArea(old(Now()), c, a.content)
    {
      if |a.content| == |staging[c]| {
        staging[c] := a.content;
      }
      status := a.status;
    }

    /** `tfm_fwu_start`. */
    method StartUpdate(c: nat, manifestSize: nat, info: Info, init: AreaAnswer) returns (status: int)
      requires Shaped()
      modifies ctx, staging
      ensures (status, Now()) == DoStart(cfg, old(Now()), c, manifestSize, info, init)
    {
      if manifestSize > cfg.maxManifest {
        return ERROR_NOT_SUPPORTED;
      }
      if c >= ctx.Length {
        return ERROR_DOES_NOT_EXIST;
      }
      if ctx[c].inUse {
        if !ctx[c].state.Ready? {
          return ERROR_BAD_STATE;
        }
      } else {
        if info.status != SUCCESS {
          return info.status;
        }
        if !info.state.Ready? {
          return ERROR_BAD_STATE;
        }
        status := ChangeArea(c, init);
        if status != SUCCESS {
          return;
        }
        ctx[c] := ctx[c].(inUse := true);
        ctx[c] := ctx[c].(state := Writing);
        assert ctx[..] == old(ctx[..])[c := ctx[c]];
      }
      status := SUCCESS;
    }

    /** The loop of `tfm_fwu_write` over the pieces of the block. */
    method WritePieces(c: nat, offset: nat, block: seq<Byte>, load: nat -> LoadAnswer) returns (status: int)
      requires Shaped() && c < ctx.Length
      modifies staging
      ensures var r := LoadPieces(old(staging[c]), offset, block, cfg.bufSize, load);
              status == r.0 && staging[..] == old(staging[..])[c := r.1]
    {
      status := SUCCESS;
      var at: nat, left := offset, block;
      while |left| > 0
        invariant staging[..] == old(staging[..])[c := staging[c]]
        invariant LoadPieces(staging[c], at, left, cfg.bufSize, load) == LoadPieces(old(staging[c]), offset, block, cfg.bufSize, load)
        invariant status == SUCCESS
        decreases |left|
      {
        var n := if cfg.bufSize <= |left| then cfg.bufSize else |left|;
        var area;
        var r := Load(staging[c], at, left[..n], load(at));
        status, area := r.0, r.1;
        staging[c] := area;
        if status != SUCCESS {
          return;
        }
        left := left[n..];
        at := at + n;
      }
    }

    /** `tfm_fwu_write`. */
    method WriteBlock(c: nat, offset: nat, block: seq<Byte>, load: nat -> LoadAnswer) returns (status: int)
      requires Shaped()
      modifies staging
      ensures (status, Now()) == DoWrite(cfg, old(Now()), c, offset, block, load)
    {
      if |block| > cfg.maxWrite {
        return ERROR_INVALID_ARGUMENT;
      }
      if c >= ctx.Length {
        return ERROR_DOES_NOT_EXIST;
      }
      if !ctx[c].inUse || !ctx[c].state.Writing? {
        return ERROR_BAD_STATE;
      }
      status := WritePieces(c, offset, block, load);
    }

    /** `tfm_fwu_finish`. */
    method FinishWriting(c: nat) returns (status: int)
      requires Shaped()
      modifies ctx
      ensures (status, Now()) == DoFinish(old(Now()), c)
    {
      if c >= ctx.Length {
        return ERROR_DOES_NOT_EXIST;
      }
      if !ctx[c].inUse || !ctx[c].state.Writing? {
        return ERROR_BAD_STATE;
      }
      ctx[c] := ctx[c].(state := Candidate);
      status := SUCCESS;
    }

    /** `tfm_fwu_cancel`. */
    method CancelUpdate(c: nat) returns (status: int)
      requires Shaped()
      modifies ctx
      ensures (status, Now()) == DoCancel(old(Now()), c)
    {
      if c >= ctx.Length {
        return ERROR_DOES_NOT_EXIST;
      }
      if ctx[c].inUse {
        if ctx[c].state.Writing? || ctx[c].state.Candidate? {
          ctx[c] := ctx[c].(state := Failed);
          ctx[c] := ctx[c].(error := SUCCESS);
          assert ctx[..] == old(ctx[..])[c := ctx[c]];
          return SUCCESS;
        } else {
          return ERROR_BAD_STATE;
        }
      } else {
        return ERROR_BAD_STATE;
      }
    }

    /** `tfm_fwu_clean`. */
    method CleanComponent(c: nat, clean: AreaAnswer) returns (status: int)
      requires Shaped()
      modifies ctx, staging
      ensures (status, Now()) == DoClean(old(Now()), c, clean)
    {
      if c >= ctx.Length {
        return ERROR_DOES_NOT_EXIST;
      }
      if ctx[c].inUse {
        if ctx[c].state.Failed? || ctx[c].state.Updated? {
          status := ChangeArea(c, clean);
          if status != SUCCESS {
            return;
          }
          ctx[c] := ctx[c].(state := Ready);
          ctx[c] := ctx[c].(inUse := false);
          assert ctx[..] == old(ctx[..])[c := ctx[c]];
          return SUCCESS;
        } else {
          return ERROR_BAD_STATE;
        }
      } else {
        return ERROR_BAD_STATE;
      }
    }

    /** The first loop of `tfm_fwu_install`. */
    method CollectCandidates(infos: nat -> Info) returns (status: int, candidates: seq<nat>)
      ensures status == Refusal(ctx[..], infos, 0)
      ensures status == SUCCESS ==> candidates == Candidates(ctx[..])
    {
      candidates := [];
      var c := 0;
      while c < ctx.Length
        invariant c <= ctx.Length && candidates == Candidates(ctx[..c])
        invariant Refusal(ctx[..], infos, c) == Refusal(ctx[..], infos, 0)
      {
        assert ctx[..c + 1][..c] == ctx[..c];
        if ctx[c].inUse {
          if ctx[c].state.Staged? || ctx[c].state.Rejected? {
            return ERROR_BAD_STATE, candidates;
          } else if ctx[c].state.Candidate? {
            candidates := candidates + [c];
          }
        } else {
          if infos(c).status != SUCCESS {
            return infos(c).status, candidates;
          }
          if infos(c).state.Trial? {
            return ERROR_BAD_STATE, candidates;
          }
        }
        c := c + 1;
      }
      assert ctx[..c] == ctx[..];
      status := SUCCESS;
    }

    /** The bootloader is only ever given the exact list of candidates, in increasing order. */
    method InstallImage(candidates: seq<nat>, answer: int) returns (status: int)
      requires candidates != [] && forall i, j | 0 <= i < j < |candidates| :: candidates[i] < candidates[j]
      requires forall c: nat :: c in candidates <==> c < ctx.Length && IsCandidate(ctx[c])
      ensures status == answer
    {
      status := answer;
    }

    /** The second loop of `tfm_fwu_install`. */
    method MoveCandidates(candidates: seq<nat>, status: int)
      requires forall i, j | 0 <= i < j < |candidates| :: candidates[i] < candidates[j]
      requires forall c: nat :: c in candidates <==> c < ctx.Length && IsCandidate(ctx[c])
      modifies ctx
      ensures ctx[..] == InstallAll(cfg.trial, status, old(ctx[..]))
    {
      var k := 0;
      assert forall i | 0 <= i < |candidates| :: candidates[i] in candidates;
      while k < |candidates|
        invariant k <= |candidates|
        invariant forall c: nat | c < ctx.Length ::
                    ctx[c] == if c in candidates[..k] then Installed(cfg.trial, status, old(ctx[c])) else old(ctx[c])
      {
        var c := candidates[k];
        assert c !in candidates[..k];
        if status == SUCCESS {
          if cfg.trial {
            ctx[c] := ctx[c].(state := Trial);
          } else {
            ctx[c] := ctx[c].(state := Updated);
          }
        } else if status != SUCCESS_REBOOT && status != SUCCESS_RESTART {
          ctx[c] := ctx[c].(state := Failed);
          ctx[c] := ctx[c].(error := status);
        } else {
          ctx[c] := ctx[c].(state := Staged);
        }
        assert candidates[..k + 1] == candidates[..k] + [c];
        k := k + 1;
      }
      assert candidates[..k] == candidates;
    }

    /** `tfm_fwu_install`. */
    method InstallUpdates(infos: nat -> Info, answer: int) returns (status: int)
      requires Shaped()
      modifies ctx
      ensures (status, Now()) == DoInstall(cfg, old(Now()), infos, answer)
    {
      var candidates;
      status, candidates := CollectCandidates(infos);
      if status != SUCCESS {
        return;
      }
      if |candidates| == 0 {
        return ERROR_BAD_STATE;
      }
      CandidatesExact(ctx[..]);
      status := InstallImage(candidates, answer);
      if status == ERROR_DEPENDENCY_NEEDED {
        return;
      }
      MoveCandidates(candidates, status);
    }

    /** `tfm_fwu_reject`. */
    method RejectUpdates(error: int, infos: nat -> Info, rejects: nat -> int) returns (status: int)
      requires Shaped()
      modifies ctx
      ensures (status, Now()) == DoReject(old(Now()), error, infos, rejects)
    {
      ghost var goal := RejectScan(ctx[..], error, infos, rejects, 0, SUCCESS, false);
      status := SUCCESS;
      var found := false;
      var c := 0;
      while c < ctx.Length
        invariant c <= ctx.Length
        invariant RejectScan(ctx[..], error, infos, rejects, c, status, found) == goal
      {
        ghost var before := ctx[..];
        var inTrial := false;
        if ctx[c].inUse {
          if ctx[c].state.Staged? {
            ctx[c] := ctx[c].(state := Failed);
            ctx[c] := ctx[c].(error := error);
            found := true;
            status := rejects(c);
            if status != SUCCESS {
              assert ctx[..] == before[c := ctx[c]];
              return;
            }
          } else if ctx[c].state.Trial? {
            found := true;
            inTrial := true;
          }
        } else {
          status := infos(c).status;
          if status != SUCCESS {
            assert before[c := before[c]] == before;
            return;
          }
          if infos(c).state.Trial? {
            ctx[c] := ctx[c].(inUse := true);
            inTrial := true;
            ctx[c] := ctx[c].(state := Trial);
            found := true;
          }
        }
        if inTrial {
          status := rejects(c);
          if status == SUCCESS_REBOOT || status == SUCCESS_RESTART {
            ctx[c] := ctx[c].(state := Rejected);
            ctx[c] := ctx[c].(error := error);
          } else if status == SUCCESS {
            ctx[c] := ctx[c].(state := Failed);
            ctx[c] := ctx[c].(error := error);
          } else {
            assert ctx[..] == before[c := ctx[c]];
            return;
          }
        }
        assert ctx[..] == before[c := ctx[c]];
        c := c + 1;
      }
      if !found {
        return ERROR_BAD_STATE;
      }
    }

    /** The first loop of `tfm_fwu_accept`; the components in trial are collected. */
    method CollectTrials(infos: nat -> Info) returns (status: int, trials: seq<nat>)
      modifies ctx
      ensures (status, ctx[..]) == AcceptScan(old(ctx[..]), infos, 0)
      ensures status == SUCCESS ==> forall c: nat :: c in trials <==> c < ctx.Length && IsTrial(ctx[c])
      ensures forall i, j | 0 <= i < j < |trials| :: trials[i] < trials[j]
    {
      trials := [];
      ghost var goal := AcceptScan(ctx[..], infos, 0);
      var c := 0;
      while c < ctx.Length
        invariant c <= ctx.Length && AcceptScan(ctx[..], infos, c) == goal
        invariant forall d: nat :: d in trials <==> d < c && IsTrial(ctx[d])
        invariant forall i, j | 0 <= i < j < |trials| :: trials[i] < trials[j]
      {
        ghost var before := ctx[..];
        assert forall i | 0 <= i < |trials| :: trials[i] in trials;
        if ctx[c].inUse {
          if ctx[c].state.Trial? {
            trials := trials + [c];
          }
        } else {
          status := infos(c).status;
          if status != SUCCESS {
            return;
          }
          if infos(c).state.Trial? {
            trials := trials + [c];
            ctx[c] := ctx[c].(inUse := true);
            ctx[c] := ctx[c].(state := Trial);
          }
          assert ctx[..] == before[c := Adopt(before[c], infos(c))];
        }
        c := c + 1;
      }
      status := SUCCESS;
    }

    /** `tfm_fwu_accept`. */
    method AcceptUpdates(infos: nat -> Info, answer: int) returns (status: int)
      requires Shaped()
      modifies ctx
      ensures (status, Now()) == DoAccept(cfg, old(Now()), infos, answer)
    {
      if !cfg.trial {
        return ERROR_NOT_SUPPORTED;
      }
      var trials;
      status, trials := CollectTrials(infos);
      if status != SUCCESS {
        return;
      }
      ghost var scanned := ctx[..];
      if |trials| == 0 {
        return ERROR_BAD_STATE;
      }
      assert trials[0] in trials;
      status := answer;
      if status != SUCCESS {
        return;
      }
      MarkUpdated(trials);
    }

    method MarkUpdated(trials: seq<nat>)
      requires forall i, j | 0 <= i < j < |trials| :: trials[i] < trials[j]
      requires forall c: nat :: c in trials <==> c < ctx.Length && IsTrial(ctx[c])
      modifies ctx
      ensures ctx[..] == AcceptAll(old(ctx[..]))
    {
      var k := 0;
      assert forall i | 0 <= i < |trials| :: trials[i] in trials;
      while k < |trials|
        invariant k <= |trials|
        invariant forall c: nat | c < ctx.Length ::
                    ctx[c] == if c in trials[..k] then old(ctx[c]).(state := Updated) else old(ctx[c])
      {
        ctx[trials[k]] := ctx[trials[k]].(state := Updated);
        assert trials[..k + 1] == trials[..k] + [trials[k]];
        k := k + 1;
      }
      assert trials[..k] == trials;
    }
  }
}
