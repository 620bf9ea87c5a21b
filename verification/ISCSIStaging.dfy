/** Staging and unstaging an iSCSI volume on a node. Each command and system call may fail, as an
    arbitrary script says, which also has what each probe of a device reports; what is recorded is
    every logout, forced kill and repair, together with what the staging path was at that moment.
    The whole of it runs inside the volume's lifecycle lock, so nothing else of the driver's RPCs
    touches the staging path meanwhile. */
module ISCSIStaging {
  import opened Wrappers

  type Device = nat

  datatype FsType = Ext2 | Ext3 | Ext4 | Xfs | OtherFs(id: nat)

  predicate IsExt(fs: FsType) { fs.Ext2? || fs.Ext3? || fs.Ext4? }

  /** What is at the staging path, apart from mounts. */
  datatype PathKind = Absent | Directory | File | Symlink(device: Device)

  datatype Event =
    | Logout(staged: bool)
    | ForceKill(staged: bool)
    | Repair(device: Device, deviceMounted: bool, detected: FsType)

  datatype Code = OK | Unavailable | Internal | FailedPrecondition | ContextDone

  const MAX_RETRIES := 2
  const MAX_PROBES := 3

  /** A teardown happened while something was staged. */
  predicate TearsDownStaged(e: Event) { (e.Logout? || e.ForceKill?) && e.staged }

  /** A repair is safe on a device that is not mounted and whose type was verified. */
  predicate SafeRepair(e: Event, fs: FsType) {
    e.Repair? ==> !e.deviceMounted && e.detected == fs && IsExt(fs)
  }

  /** The events that come after `before` are no teardown of anything staged and no unsafe repair. */
  predicate Safely(before: seq<Event>, after: seq<Event>, fs: FsType) {
    && before <= after
    && forall e :: e in after[|before|..] ==> !TearsDownStaged(e) && SafeRepair(e, fs)
  }

  /** They are all repairs, and safe ones. */
  predicate Repairs(before: seq<Event>, after: seq<Event>, fs: FsType) {
    && before <= after
    && forall e :: e in after[|before|..] ==> e.Repair? && SafeRepair(e, fs)
  }

  lemma NextIsSafe(before: seq<Event>, e: Event, fs: FsType)
    requires !TearsDownStaged(e) && SafeRepair(e, fs)
    ensures Repairs(before, before, fs) && Safely(before, before, fs) && Safely(before, before + [e], fs)
  {
  }

  lemma RepairsAreSafe(before: seq<Event>, after: seq<Event>, fs: FsType)
    requires Repairs(before, after, fs)
    ensures Safely(before, after, fs) && before <= after
  {
  }

  lemma SafelyOn(before: seq<Event>, between: seq<Event>, after: seq<Event>, fs: FsType)
    requires Safely(before, between, fs) && Safely(between, after, fs)
    ensures Safely(before, after, fs)
  {
    assert after[|before|..] == between[|before|..] + after[|between|..];
  }

  /** What the host knows of the volume's session: a device that it finds for it, whether that session
      is logged in, whether it lists a session without a device, and the device that a login brings. */
  datatype Session = Session(found: Option<Device>, loggedIn: bool, listed: bool, appears: Option<Device>)

  /** What happens to a command or system call: whether it fails, whether it then exits with 2, and what
      it reports if it is a probe of a device. */
  datatype Outcome = Outcome(err: bool, exitsTwo: bool, reports: Device -> Option<FsType>)

  class NodeService {
    const script: nat -> Outcome                  // of the n-th command or system call
    const filesystem: Device -> Option<FsType>    // what the devices have
    var commands: nat
    var path: PathKind
    var mounted: bool             // the staging path is a mount point
    var busy: set<Device>         // devices that are mounted somewhere
    var events: seq<Event>

    constructor (script: nat -> Outcome, filesystem: Device -> Option<FsType>)
      ensures this.script == script && this.filesystem == filesystem
      ensures path == Absent && !mounted && busy == {} && events == []
    {
      this.script, this.filesystem := script, filesystem;
      commands, path, mounted, busy, events := 0, Absent, false, {}, [];
    }

    predicate Errs(n: nat) { script(n).err }

    function Reports(n: nat, device: Device): Option<FsType> { script(n).reports(device) }

    predicate ExitsTwo(n: nat) { script(n).exitsTwo }

    method Fails() returns (err: bool)
      modifies this`commands
      ensures err == Errs(old(commands)) && commands == old(commands) + 1
    {
      err := Errs(commands);
      commands := commands + 1;
    }

    /** No command fails, and every probe reports what the device has. */
    ghost predicate NothingFails() {
      && (forall n :: !Errs(n))
      && forall n, device :: Reports(n, device) == filesystem(device)
    }

    /** A mount, or the block-mode symlink. */
    predicate Staged()
      reads this`path, this`mounted
    {
      mounted || path.Symlink?
    }

    /** The same things are staged as before. */
    twostate predicate SameStaging()
      reads this
    {
      mounted == old(mounted) && (path.Symlink? || old(path).Symlink? ==> path == old(path))
    }

    twostate predicate NothingChanged()
      reads this
    {
      path == old(path) && mounted == old(mounted) && busy == old(busy) && events == old(events)
    }

    /** The device can be mounted: its filesystem is the expected one, and if that is to be checked, it
        is not mounted elsewhere. */
    predicate CanMount(device: Device, fs: FsType)
      reads this`busy
    {
      filesystem(device) == Some(fs) && (IsExt(fs) ==> device !in busy)
    }

    /** Staging works out when nothing fails: for block mode unless another thing is mounted on the path,
        and for a filesystem if the path can be a directory, and is mounted already or can be. */
    predicate CanStage(device: Device, block: bool, fs: FsType)
      reads this`path, this`mounted, this`busy
    {
      if block then path == Absent || path == Symlink(device) || !mounted
      else (path == Absent || path == Directory) && (mounted || CanMount(device, fs))
    }

    /** The probe that is the n-th command runs to its end, exits well, and reports a type. */
    ghost predicate Answers(n: nat, device: Device) {
      !Errs(n) && !Errs(n + 1) && Reports(n, device).Some?
    }

    /** The k-th round of probing from command c on, which is neither cancelled nor answered. */
    ghost predicate Silent(c: nat, k: nat, device: Device) {
      !Errs(c + 4 * k) && !Answers(c + 4 * k + 1, device) && !Errs(c + 4 * k + 3)
    }

    /** The k-th round is the first with an answer. */
    ghost predicate Answered(c: nat, k: nat, device: Device) {
      && k < MAX_PROBES
      && (forall j: nat :: j < k ==> Silent(c, j, device))
      && !Errs(c + 4 * k) && Answers(c + 4 * k + 1, device)
    }

    /** The k-th round is cancelled. */
    ghost predicate Cancelled(c: nat, k: nat, device: Device) {
      && k < MAX_PROBES
      && (forall j: nat :: j < k ==> Silent(c, j, device))
      && (Errs(c + 4 * k)
          || (!Answers(c + 4 * k + 1, device) && k + 1 < MAX_PROBES && Errs(c + 4 * k + 3)))
    }

    /** Some probe between two commands has answered that the device has this filesystem. */
    ghost predicate Verified(from: nat, to: nat, device: Device, fs: FsType) {
      exists n: nat :: from <= n < to && Answers(n, device) && Reports(n, device) == Some(fs)
    }

    lemma VerifiedWithin(from: nat, to: nat, device: Device, fs: FsType)
      requires Verified(from, to, device, fs)
      ensures forall before: nat, after: nat :: before <= from && to <= after ==> Verified(before, after, device, fs)
    {
    }

    /** The guard lets a teardown through exactly when both the path and the mount table can be read
        and show that nothing is staged. */
    method RefuseTeardownWhileStaged() returns (refused: bool)
      modifies this`commands
      ensures refused ==> Staged() || !NothingFails()
      ensures Staged() ==> refused
      ensures !Staged() ==> (refused <==> Errs(old(commands)) || Errs(old(commands) + 1))
      ensures !refused ==> commands == old(commands) + 2
      ensures commands >= old(commands)
    {
      var lstatErrs := Fails();
      if !lstatErrs && path.Symlink? { return true; }
      if lstatErrs { return true; }
      var tableErrs := Fails();
      if tableErrs { return true; }
      return mounted;
    }

    method LogoutISCSITarget()
      modifies this`events
      ensures events == old(events) + [Logout(Staged())]
    {
      events := events + [Logout(Staged())];
    }

    method ForceKillISCSISession()
      modifies this`events
      ensures events == old(events) + [ForceKill(Staged())]
    {
      events := events + [ForceKill(Staged())];
    }

    method ForceKillISCSISessionByIQN(listed: bool)
      modifies this`events
      ensures events == if listed then old(events) + [ForceKill(Staged())] else old(events)
    {
      if listed { ForceKillISCSISession(); }
    }

    /** The filesystem check, of an ext filesystem only. */
    method RepairFilesystem(device: Device, fs: FsType) returns (err: bool)
      modifies this`commands, this`events
      ensures fs != Ext2 && fs != Ext3 && fs != Ext4 ==> !err && commands == old(commands) && events == old(events)
      ensures IsExt(fs) ==> (err <==> Errs(old(commands)) || Errs(old(commands) + 1))
      ensures IsExt(fs) ==> commands == old(commands) + if Errs(old(commands)) then 1 else 2
      ensures IsExt(fs) ==>
                events == if Errs(old(commands)) then old(events)
                          else old(events) + [Repair(device, device in busy, fs)]
    {
      if !IsExt(fs) { return false; }
      var contextDone := Fails();
      if contextDone { return true; }
      events := events + [Repair(device, device in busy, fs)];
      err := Fails();
    }

    /** What follows from the answer that the n-th command gave about a device: a type that is not the
        expected one is refused, and an ext filesystem is repaired if it is known not to be mounted. */
    ghost predicate AnswerDecides(n: nat, device: Device, fs: FsType, inUse: bool, code: Code, repaired: bool) {
      if Reports(n, device) != Some(fs) then code == FailedPrecondition && !repaired
      else if !IsExt(fs) then code == OK && !repaired
      else if Errs(n + 2) then code == Unavailable && !repaired
      else if inUse || Errs(n + 3) then code == FailedPrecondition && !repaired
      else repaired && code == if Errs(n + 4) then FailedPrecondition else OK
    }

    /** The outcome of preparing a device. The first answer decides; without one it is Unavailable,
        except that a last probe which finds no signature is a refusal. */
    ghost predicate FollowsProbes(c: nat, device: Device, fs: FsType, inUse: bool, code: Code, repaired: bool) {
      var last := c + 4 * (MAX_PROBES - 1) + 1;
      && (forall k: nat :: Answered(c, k, device) ==> AnswerDecides(c + 4 * k + 1, device, fs, inUse, code, repaired))
      && (code == ContextDone <==> exists k: nat :: Cancelled(c, k, device))
      && ((forall k: nat :: !Answered(c, k, device)) ==> !repaired)
      && ((forall k: nat :: !Answered(c, k, device) && !Cancelled(c, k, device)) ==>
            code == if !Errs(last) && Reports(last, device).None? && (Errs(last + 1) ==> ExitsTwo(last + 1))
                    then FailedPrecondition else Unavailable)
    }

    /** At most one round is the last, and it is answered or cancelled, not both. */
    lemma {:induction false} LastRoundIsUnique(c: nat, k: nat, device: Device)
      requires Answered(c, k, device) || Cancelled(c, k, device)
      ensures forall j: nat :: j != k ==> !Answered(c, j, device) && !Cancelled(c, j, device)
      ensures !Answered(c, k, device) || !Cancelled(c, k, device)
    {
      forall j: nat | j != k ensures !Answered(c, j, device) && !Cancelled(c, j, device) {
        assert j < k ==> Silent(c, j, device);
        assert Answered(c, j, device) || Cancelled(c, j, device) ==> j < k || Silent(c, k, device);
      }
    }

    lemma {:induction false} AnswerSettles(c: nat, k: nat, device: Device, fs: FsType)
      requires Answered(c, k, device)
      ensures forall inUse, code, repaired :: AnswerDecides(c + 4 * k + 1, device, fs, inUse, code, repaired) ==>
                FollowsProbes(c, device, fs, inUse, code, repaired)
      ensures Reports(c + 4 * k + 1, device) != Some(fs) ==>
                forall inUse :: FollowsProbes(c, device, fs, inUse, FailedPrecondition, false)
    {
      LastRoundIsUnique(c, k, device);
      hide Answered, Cancelled, Reports, Errs;
    }

    lemma {:induction false} NoAnswerSettles(c: nat, k: nat, device: Device, fs: FsType, code: Code)
      requires Cancelled(c, k, device) ==> code == ContextDone
      requires !Cancelled(c, k, device) ==>
                var n := c + 4 * (MAX_PROBES - 1) + 1;
                && (forall j: nat :: !Answered(c, j, device) && !Cancelled(c, j, device))
                && code == if !Errs(n) && Reports(n, device).None? && (Errs(n + 1) ==> ExitsTwo(n + 1))
                           then FailedPrecondition else Unavailable
      ensures forall inUse :: FollowsProbes(c, device, fs, inUse, code, false)
    {
      if Cancelled(c, k, device) { LastRoundIsUnique(c, k, device); }
      hide Answered, Cancelled, Reports, Errs, ExitsTwo;
    }

    /** The probes, up to the first answer. */
    method VerifyFilesystemType(device: Device, fs: FsType) returns (code: Code, ghost n: nat)
      modifies this`commands
      ensures code == OK || code == Unavailable || code == FailedPrecondition || code == ContextDone
      ensures code == OK ==>
                && commands == n + 2 && Reports(n, device) == Some(fs) && Verified(old(commands), commands, device, fs)
                && forall inUse, code, repaired :: AnswerDecides(n, device, fs, inUse, code, repaired) ==>
                     FollowsProbes(old(commands), device, fs, inUse, code, repaired)
      ensures code != OK ==> forall inUse :: FollowsProbes(old(commands), device, fs, inUse, code, false)
      ensures NothingFails() ==> code == if filesystem(device) == Some(fs) then OK else FailedPrecondition
      ensures commands >= old(commands)
    {
      hide FollowsProbes, AnswerDecides, Errs, Reports, ExitsTwo;
      ghost var c, k, last := commands, 0, commands + 4 * (MAX_PROBES - 1) + 1;
      n := c;
      var noSignature, attempt := false, 1;
      while attempt <= MAX_PROBES
        invariant k + 1 == attempt <= MAX_PROBES + 1
        invariant commands == c + 4 * k - if k < MAX_PROBES then 0 else 1
        invariant forall j: nat :: j < k && j + 1 < MAX_PROBES ==> Silent(c, j, device)
        invariant k == MAX_PROBES ==> !Errs(last - 1) && !Answers(last, device)
        invariant k == MAX_PROBES ==>
                    (noSignature <==>
                       !Errs(last) && Reports(last, device).None? && (Errs(last + 1) ==> ExitsTwo(last + 1)))
      {
        var contextDone := Fails();
        if contextDone {
          NoAnswerSettles(c, k, device, fs, ContextDone);
          return ContextDone, n;
        }
        n := commands;
        var detected := Reports(commands, device);
        var probeErrs := Fails();
        var exitCode2 := ExitsTwo(commands);
        var exitErrs := Fails();
        if !probeErrs && !exitErrs && detected.Some? {
          AnswerSettles(c, k, device, fs);
          return if detected.value != fs then FailedPrecondition else OK, n;
        }
        noSignature := if probeErrs then false else if exitErrs then exitCode2 && detected.None? else true;
        if attempt < MAX_PROBES {
          var cancelled := Fails();
          if cancelled {
            NoAnswerSettles(c, k, device, fs, ContextDone);
            return ContextDone, n;
          }
        }
        attempt, k := attempt + 1, k + 1;
      }
      code := if noSignature then FailedPrecondition else Unavailable;
      forall j: nat ensures !Answered(c, j, device) && !Cancelled(c, j, device) {
        if j + 1 < MAX_PROBES { assert Silent(c, j, device); }
      }
      NoAnswerSettles(c, k, device, fs, code);
      return code, n;
    }

    /** The filesystem type is verified before anything else, and only an unmounted ext device is
        repaired. The device is never formatted. */
    method PrepareFilesystemForMount(device: Device, fs: FsType) returns (code: Code)
      modifies this`commands, this`events
      ensures events == old(events)
           || (IsExt(fs) && device !in busy && events == old(events) + [Repair(device, false, fs)])
      ensures code == OK ==> (events != old(events) <==> fs == Ext2 || fs == Ext3 || fs == Ext4)
      ensures code == OK ==> Verified(old(commands), commands, device, fs)
      ensures code == OK || code == Unavailable || code == FailedPrecondition || code == ContextDone
      ensures code == Unavailable ==> events == old(events)
      ensures commands >= old(commands)
      ensures FollowsProbes(old(commands), device, fs, device in busy, code, events != old(events))
      ensures NothingFails() ==> code == if CanMount(device, fs) then OK else FailedPrecondition
      ensures NothingFails() && code != OK ==> events == old(events)
    {
      hide Answered, Cancelled, FollowsProbes, Verified, Errs, Reports, ExitsTwo;
      ghost var n;
      code, n := VerifyFilesystemType(device, fs);
      if code != OK { return; }
      VerifiedWithin(old(commands), commands, device, fs);
      if IsExt(fs) {
        var checkErrs := Fails();
        if checkErrs { return Unavailable; }
        if device in busy { return FailedPrecondition; }
      }
      var repairErrs := RepairFilesystem(device, fs);
      return if repairErrs then FailedPrecondition else OK;
    }

    /** A symlink whose device is gone does not resolve, and is in the way of the new one. */
    method StageBlockDevice(device: Device) returns (code: Code)
      modifies this`commands, this`path
      ensures code == OK ==> path == Symlink(device)
      ensures code == OK || code == Internal
      ensures commands >= old(commands)
      ensures code != OK ==> path == old(path) || (path == Absent && !mounted)
      ensures var c := old(commands);
              code == OK <==>
                && !Errs(c)
                && match old(path)
                   case Absent => !Errs(c + 2)
                   case Symlink(d) => !Errs(c + 1) && (d == device || (!mounted && !Errs(c + 2) && !Errs(c + 3)))
                   case _ => !mounted && !Errs(c + 2) && !Errs(c + 3)
      ensures code != OK && (Errs(old(commands)) || mounted) ==> path == old(path)
      ensures NothingFails() ==> (code == OK <==> old(path) == Absent || old(path) == Symlink(device) || !mounted)
    {
      var deviceGone := Fails();
      if deviceGone { return Internal; }
      var dangling := Fails();
      if path != Absent && !(path.Symlink? && dangling) {
        if path == Symlink(device) { return OK; }
        var removeErrs := Fails();
        if removeErrs || mounted { return Internal; }
        path := Absent;
      }
      var linkErrs := Fails();
      if linkErrs || path != Absent { return Internal; }
      path := Symlink(device);
      return OK;
    }

    method FormatAndMount(device: Device, fs: FsType) returns (code: Code)
      modifies this`commands, this`path, this`mounted, this`busy, this`events
      ensures code == OK ==> mounted
      ensures code == Unavailable ==> SameStaging() && busy == old(busy)
      ensures events == old(events)
           || (!old(mounted) && IsExt(fs) && device !in old(busy) &&
               events == old(events) + [Repair(device, false, fs)])
      ensures commands > old(commands)
      ensures var c := old(commands);
              && (Errs(c) ==> code == FailedPrecondition && NothingChanged())
              && (!Errs(c) && (Errs(c + 1) || old(path) == File || old(path).Symlink?) ==>
                    code == Internal && NothingChanged())
              && (!Errs(c) && !Errs(c + 1) && (old(path) == Absent || old(path) == Directory) ==>
                    path == Directory)
              && (!Errs(c) && !Errs(c + 1) && (old(path) == Absent || old(path) == Directory) && Errs(c + 2) ==>
                    code == Internal && mounted == old(mounted) && busy == old(busy) && events == old(events))
      ensures code == OK && !old(mounted) ==> Verified(old(commands), commands, device, fs) && !Errs(commands - 1)
      ensures code == OK && !old(mounted) ==> (events != old(events) <==> IsExt(fs))
      ensures code != OK ==>
                (mounted && busy == old(busy) + {device}) || (mounted == old(mounted) && busy == old(busy))
      ensures mounted != old(mounted) ==> code == OK || (code == Internal && Errs(commands - 1))
      ensures NothingFails() ==> (code == OK <==> old(CanStage(device, false, fs))) && code != Unavailable
      ensures code == OK && !old(mounted) ==> busy == old(busy) + {device}
      ensures code == OK && old(mounted) ==> busy == old(busy) && events == old(events)
    {
      hide Verified, FollowsProbes, Errs, Reports;
      var sizeErrs := Fails();
      if sizeErrs { return FailedPrecondition; }
      var mkdirErrs := Fails();
      if mkdirErrs || path == File || path.Symlink? { return Internal; }
      if path == Absent { path := Directory; }
      var tableErrs := Fails();
      if tableErrs { return Internal; }
      if mounted { return OK; }
      code := PrepareFilesystemForMount(device, fs);
      if code != OK { return; }
      ghost var verifying := commands;
      var mountErrs := Fails();
      var mountTook: bool := *;
      if !mountErrs || mountTook { mounted, busy := true, busy + {device}; }
      VerifiedWithin(old(commands) + 3, verifying, device, fs);
      return if mountErrs then Internal else OK;
    }

    /** Unavailable implies that nothing was staged by this attempt. A device that disappears before
        it is used is Unavailable, with nothing changed. */
    method StageISCSIDevice(device: Device, block: bool, fs: FsType) returns (code: Code)
      modifies this`commands, this`path, this`mounted, this`busy, this`events
      ensures code == OK ==> Staged() && (block ==> path == Symlink(device)) && (!block ==> mounted)
      ensures code == OK && !block && !old(mounted) ==> Verified(old(commands), commands, device, fs)
      ensures code == Unavailable ==> SameStaging()
      ensures |events| <= |old(events)| + 1
      ensures Repairs(old(events), events, fs)
      ensures commands >= old(commands)
      ensures var c := old(commands);
              && (Errs(c) ==> code == Unavailable && NothingChanged())
              && (!block && !Errs(c) && Errs(c + 1) ==>
                    code == (if Errs(c + 2) then Unavailable else Internal) && NothingChanged())
              && (!block && !Errs(c) && !Errs(c + 1) && Errs(c + 2) ==> code == Unavailable && NothingChanged())
              && (!block && !Errs(c) && !Errs(c + 1) && !Errs(c + 2) && Errs(c + 3) ==>
                    code == FailedPrecondition && NothingChanged())
              && (block && !Errs(c) && Errs(c + 1) ==> code == Internal && NothingChanged())
              && (block && !Errs(c) ==> code == OK || code == Internal)
      ensures NothingFails() ==> (code == OK <==> old(CanStage(device, block, fs))) && code != Unavailable
      ensures block ==> mounted == old(mounted) && busy == old(busy) && events == old(events)
      ensures code == OK && !block && !old(mounted) ==> busy == old(busy) + {device}
    {
      var gone := Fails();
      if gone { return Unavailable; }
      if !block {
        var initErrs := Fails();
        if initErrs {
          var vanished := Fails();
          return if vanished then Unavailable else Internal;
        }
        gone := Fails();
        if gone { return Unavailable; }
      }
      if block { code := StageBlockDevice(device); } else { code := FormatAndMount(device, fs); }
    }

    /** The session that was found is logged in, as a working check of its state says. */
    ghost predicate Reusable(session: Session, c: nat) {
      session.found.Some? && session.loggedIn && !Errs(c)
    }

    /** Staging, with its reuse of a healthy session, its guard and its retries. Every logout and
        forced kill happens while nothing is staged, and every repair is of an unmounted device
        whose filesystem type was verified. When nothing fails, staging over a healthy session, or after
        a login if nothing is staged, works out exactly if the device can be staged. */
    method StageISCSIVolume(session: Session, block: bool, fs: FsType) returns (code: Code)
      modifies this`commands, this`path, this`mounted, this`busy, this`events
      ensures Safely(old(events), events, fs)
      ensures old(Staged()) ==> Repairs(old(events), events, fs)
      ensures code == OK ==> Staged() && (block ==> path.Symlink?) && (!block ==> mounted)
      ensures code == OK && !block && !old(mounted) ==>
                || (session.found.Some? && Verified(old(commands), commands, session.found.value, fs))
                || (session.appears.Some? && Verified(old(commands), commands, session.appears.value, fs))
      ensures Reusable(session, old(commands)) ==>
                && Repairs(old(events), events, fs)
                && (NothingFails() ==> (code == OK <==> old(CanStage(session.found.value, block, fs))))
      ensures !Reusable(session, old(commands)) && old(Staged()) ==> code == Unavailable && NothingChanged()
      ensures !Reusable(session, old(commands)) && !old(Staged()) ==>
                var c := old(commands) + if session.found.Some? then 1 else 0;
                var killed := if session.found.Some? || session.listed then [ForceKill(false)] else [];
                if Errs(c) || Errs(c + 1) then code == Unavailable && NothingChanged()
                else if Errs(c + 2) then code == FailedPrecondition && events == old(events) + killed
                else
                  && code != Unavailable
                  && old(events) + killed <= events
                  && (NothingFails() ==>
                        (code == OK <==> session.appears.Some? && old(CanStage(session.appears.value, block, fs))))
    {
      hide Verified, CanStage, Errs, Safely, Repairs;
      if session.found.Some? {
        var stateErrs := Fails();
        if !stateErrs && session.loggedIn {
          code := StageISCSIDevice(session.found.value, block, fs);
          RepairsAreSafe(old(events), events, fs);
          if code == OK && !block && !old(mounted) {
            VerifiedWithin(old(commands) + 1, commands, session.found.value, fs);
          }
          return;
        }
      }
      NextIsSafe(events, ForceKill(false), fs);
      var refused := RefuseTeardownWhileStaged();
      if refused { return Unavailable; }
      if session.found.Some? { ForceKillISCSISession(); } else { ForceKillISCSISessionByIQN(session.listed); }
      var toolMissing := Fails();
      if toolMissing { return FailedPrecondition; }
      ghost var connecting, killed := commands, events;
      code := ConnectAndStage(session.appears, block, fs);
      SafelyOn(old(events), killed, events, fs);
      if code == OK && !block { VerifiedWithin(connecting, commands, session.appears.value, fs); }
    }

    /** One round of the retry loop. It gives the outcome, or none if another round is to follow, which
        is so only if nothing got staged. */
    method AttemptStaging(appears: Option<Device>, block: bool, fs: FsType) returns (outcome: Option<Code>)
      requires !Staged()
      modifies this`commands, this`path, this`mounted, this`busy, this`events
      ensures |events| <= |old(events)| + 2
      ensures Safely(old(events), events, fs) && old(events) <= events
      ensures outcome != Some(Unavailable)
      ensures outcome == Some(OK) ==> Staged() && (block ==> path.Symlink?) && (!block ==> mounted)
      ensures outcome == Some(OK) ==> appears.Some? && (!block ==> Verified(old(commands), commands, appears.value, fs))
      ensures outcome.None? ==> !Staged()
      ensures commands >= old(commands)
      ensures var c := old(commands);
              if Errs(c) then outcome.None? && commands == c + 1 && NothingChanged()
              else if Errs(c + 1) || appears.None? then
                && outcome.None? && events == old(events) + [Logout(false)]
                && path == old(path) && mounted == old(mounted) && busy == old(busy)
              else if Errs(c + 2) then outcome.None? && events == old(events) + [Logout(false)]
              else
                && (outcome.None? ==> events != [] && events[|events| - 1] == Logout(false))
                && (outcome.Some? ==> Repairs(old(events), events, fs))
                && (NothingFails() ==>
                      && outcome.Some? && (outcome.value == OK <==> old(CanStage(appears.value, block, fs))))
    {
      hide Verified, CanStage, Errs, Safely, Repairs;
      NextIsSafe(events, Logout(false), fs);
      var loginErrs := Fails();
      if loginErrs { return None; }
      var deviceErrs := Fails();
      if deviceErrs || appears.None? {
        LogoutISCSITarget();
        return None;
      }
      var code := StageISCSIDevice(appears.value, block, fs);
      RepairsAreSafe(old(events), events, fs);
      if code == OK && !block { VerifiedWithin(old(commands) + 2, commands, appears.value, fs); }
      if code != Unavailable { return Some(code); }
      ghost var staging := events;
      LogoutISCSITarget();
      SafelyOn(old(events), staging, events, fs);
      return None;
    }

    /** The retry loop. It starts with nothing staged, and goes around only while that is so. */
    method ConnectAndStage(appears: Option<Device>, block: bool, fs: FsType) returns (code: Code)
      requires !Staged()
      modifies this`commands, this`path, this`mounted, this`busy, this`events
      ensures |events| <= |old(events)| + 2 * MAX_RETRIES
      ensures Safely(old(events), events, fs) && old(events) <= events
      ensures code == OK ==> Staged() && (block ==> path.Symlink?) && (!block ==> mounted)
      ensures code == OK ==> appears.Some? && (!block ==> Verified(old(commands), commands, appears.value, fs))
      ensures code != Unavailable
      ensures NothingFails() && appears.Some? ==>
                && (code == OK <==> old(CanStage(appears.value, block, fs)))
                && Repairs(old(events), events, fs)
      ensures NothingFails() && appears.None? ==>
                code == Internal && events == old(events) + [Logout(false), Logout(false)]
      ensures Errs(old(commands)) && Errs(old(commands) + 1) ==> code == Internal && NothingChanged()
    {
      var attempt := 1;
      while attempt <= MAX_RETRIES
        invariant 1 <= attempt <= MAX_RETRIES + 1
        invariant !Staged()
        invariant old(events) <= events && |events| <= |old(events)| + 2 * (attempt - 1)
        invariant Safely(old(events), events, fs)
        invariant NothingFails() && appears.Some? ==> attempt == 1
        invariant attempt == 1 ==> path == old(path) && mounted == old(mounted) && busy == old(busy)
        invariant attempt == 1 ==> events == old(events)
        invariant NothingFails() && appears.None? ==>
                    events == old(events) + [Logout(false), Logout(false)][..attempt - 1]
        invariant commands >= old(commands)
        invariant attempt == 1 ==> commands == old(commands)
        invariant Errs(old(commands)) && Errs(old(commands) + 1) ==>
                    commands == old(commands) + attempt - 1 && NothingChanged()
      {
        hide Staged, CanStage, Safely, Repairs;
        ghost var before := events;
        attempt := attempt + 1;
        var outcome := AttemptStaging(appears, block, fs);
        SafelyOn(old(events), before, events, fs);
        if outcome.Some? { return outcome.value; }
      }
      return Internal;
    }

    /** Unstaging: the session is resolved from what is staged before the unmount hides it, and is
        logged out of even if the unmount fails. `unmounts` says whether an unmount takes effect, and
        `still` which devices are mounted elsewhere too. */
    method UnstageISCSIVolume(resolved: bool, tableErrs: bool, unmounts: bool, still: set<Device>) returns (code: Code)
      modifies this`mounted, this`busy, this`events
      ensures code == if tableErrs then Internal else OK
      ensures tableErrs ==> mounted == old(mounted) && busy == old(busy) && events == old(events)
      ensures !tableErrs ==> mounted == (old(mounted) && !unmounts)
      ensures !tableErrs ==> busy == if old(mounted) && unmounts then old(busy) * still else old(busy)
      ensures !tableErrs ==> events == if resolved then old(events) + [Logout(Staged())] else old(events)
    {
      if tableErrs { return Internal; }
      if mounted {
        if unmounts { mounted, busy := false, busy * still; }
      }
      if !resolved { return OK; }
      LogoutISCSITarget();
      return OK;
    }
  }
}
