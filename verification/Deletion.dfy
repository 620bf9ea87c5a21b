/** DeleteVolume and its bounded retry. Every backend call may fail, cleanly or with an uncertain
    outcome, as an arbitrary script says; so what is proved holds for any sequence of attempts and
    backend errors. */
module Deletion {
  import opened Protocols
  import Retry
  import SnapshotIds
  import opened Wrappers

  type Name = string

  /** The properties that deletion looks at. Missing ones read as the empty string. */
  datatype Record = Record(managed: bool, volumeName: Option<Name>, protocol: Option<Protocol>, strategy: Strategy)

  datatype Strategy = Unset | Delete | Retain | Unknown

  /** A share, target or subsystem, listed under `key`: the path, IQN or NQN. */
  datatype Presentation = Presentation(protocol: Protocol, id: nat, key: string, storage: Name)

  /** How a backend call ends. An uncertain call may have had its effect. */
  datatype Outcome =
    | Works
    | NotFound
    | Fails(retryable: bool)
    | Uncertain(committed: bool, retryable: bool)

  datatype Status = OK | InvalidArgument | FailedPrecondition | Unavailable | Internal

  predicate Succeeded(o: Outcome) { o.Works? || o.NotFound? }

  function Lower(c: char): char { if 'A' <= c <= 'Z' then c - 'A' + 'a' else c }

  function ToLower(s: string): string { seq(|s|, i requires 0 <= i < |s| => Lower(s[i])) }

  function KeyOf(p: Protocol, filesystem: string, n: Name): string {
    match p
    case ISCSI => "iqn.2137-04.storage.nasty:" + ToLower(n)
    case NVMeOF => "nqn.2137-04.storage.nasty:" + n
    case _ => "/fs/" + filesystem + "/" + n
  }

  /** A key tells volumes apart, but for the case of letters in IQNs. */
  lemma KeyTellsVolumes(p: Protocol, filesystem: string, n: Name, m: Name)
    ensures KeyOf(p, filesystem, n) == KeyOf(p, filesystem, m) <==>
              if p.ISCSI? then ToLower(n) == ToLower(m) else n == m
  {
    var prefix := if p.ISCSI? then "iqn.2137-04.storage.nasty:" else if p.NVMeOF? then "nqn.2137-04.storage.nasty:"
                  else "/fs/" + filesystem + "/";
    var a, b := if p.ISCSI? then ToLower(n) else n, if p.ISCSI? then ToLower(m) else m;
    assert KeyOf(p, filesystem, n) == prefix + a && KeyOf(p, filesystem, m) == prefix + b;
    assert (prefix + a)[|prefix|..] == a && (prefix + b)[|prefix|..] == b;
  }

  /** Two names are the same up to the case of ASCII letters. */
  lemma ToLowerMeaning(n: string, m: string)
    ensures ToLower(n) == ToLower(m) <==>
              && |n| == |m|
              && forall i :: 0 <= i < |n| ==>
                   || n[i] == m[i]
                   || ('A' <= n[i] <= 'Z' && m[i] as int == n[i] as int + 32)
                   || ('A' <= m[i] <= 'Z' && n[i] as int == m[i] as int + 32)
  {
    if |n| == |m| {
      forall i | 0 <= i < |n| ensures ToLower(n)[i] == Lower(n[i]) && ToLower(m)[i] == Lower(m[i]) {}
    }
  }

  // ----- Which volumes may be deleted -----

  /** Ownership, name, protocol and strategy are proven, for a volume that may be deleted. */
  predicate Proven(r: Record, n: Name) {
    && r.managed && (r.volumeName.Some? ==> r.volumeName.value == n)
    && r.protocol.Some? && (r.strategy.Unset? || r.strategy.Delete?)
  }

  predicate ValidateDeletionOwnership(r: Record, n: Name, p: Option<Protocol>) {
    && r.managed
    && !(r.volumeName.Some? && r.volumeName.value != n)
    && !(r.protocol.Some? && r.protocol != p)
    && !r.strategy.Unknown?
  }

  /** The record allows deletion through this protocol's path. */
  predicate MayDelete(r: Record, n: Name, p: Protocol) {
    && r.managed && (r.volumeName.Some? ==> r.volumeName.value == n) && (r.protocol.Some? ==> r.protocol.value == p)
    && (r.strategy.Unset? || r.strategy.Delete?)
  }

  /** The record proves ownership, and has the volume kept. */
  predicate IsRetained(r: Record, n: Name, p: Protocol) {
    && r.managed && (r.volumeName.Some? ==> r.volumeName.value == n) && (r.protocol.Some? ==> r.protocol.value == p)
    && r.strategy.Retain?
  }

  /** The answer when there is nothing to delete: success for what is absent or retained, and otherwise
      the refusal of what is not proven. */
  function StatusWithout(subvolumes: map<Name, Record>, n: Name, p: Option<Protocol>): Status {
    if n !in subvolumes then OK
    else if p.Some? && IsRetained(subvolumes[n], n, p.value) then OK
    else FailedPrecondition
  }

  /** The subvolumes that a volume ID may denote: the one at its path, or for a plain name all that
      record it. */
  function Denoted(filesystem: string, id: string, subvolumes: map<Name, Record>): (names: set<Name>)
    ensures names <= subvolumes.Keys
  {
    if '/' in id then
      set n | n in subvolumes && SnapshotIds.SplitSubvolumeID(id) == Some((filesystem, n))
    else
      set n | n in subvolumes && subvolumes[n].volumeName == Some(id)
  }

  /** A path denotes its own subvolume, and a plain name those that record it. */
  lemma DenotedIff(filesystem: string, id: string, subvolumes: map<Name, Record>, n: Name)
    requires '/' !in filesystem
    ensures n in Denoted(filesystem, id, subvolumes) <==>
              && n in subvolumes
              && ((n != "" && id == filesystem + "/" + n) || ('/' !in id && subvolumes[n].volumeName == Some(id)))
  {
    SnapshotIds.SplitUndoesJoin(id, filesystem, n);
    assert id == filesystem + "/" + n ==> id[|filesystem|] == '/';
  }

  /** The only name that a deletion with this ID can be proven for. */
  function ProperName(id: string): Name {
    match SnapshotIds.SplitSubvolumeID(id)
    case Some(parts) => parts.1
    case None => id
  }

  /** A plain name never deletes a subvolume of another name, even one that records it. */
  lemma ProvenIsProper(filesystem: string, id: string, subvolumes: map<Name, Record>, n: Name)
    requires n in Denoted(filesystem, id, subvolumes)
    requires ValidateDeletionOwnership(subvolumes[n], n, subvolumes[n].protocol)
    ensures n == ProperName(id)
  {
    if SnapshotIds.SplitSubvolumeID(id).Some? {
      var parts := SnapshotIds.SplitSubvolumeID(id).value;
      SnapshotIds.SplitUndoesJoin(id, parts.0, parts.1);
      assert id[|parts.0|] == '/';
    }
  }

  // ----- The listings -----

  /** Identifiers and block keys are unique, and a presentation is listed under the key of the
      storage it presents. */
  ghost predicate WellListed(filesystem: string, ps: set<Presentation>) {
    && (forall q, r | q in ps && r in ps && q.protocol == r.protocol ::
          q.id == r.id || (q.protocol.IsBlock() && q.key == r.key) ==> q == r)
    && (forall q :: q in ps ==> q.key == KeyOf(q.protocol, filesystem, q.storage))
  }

  lemma ListedUnderKey(filesystem: string, ps: set<Presentation>, q: Presentation)
    requires WellListed(filesystem, ps) && q in ps
    ensures q.key == KeyOf(q.protocol, filesystem, q.storage)
  {
  }

  ghost predicate AllPresentationsGone(ps: set<Presentation>, p: Protocol, key: string) {
    forall q :: q in ps ==> !(q.protocol == p && q.key == key)
  }

  /** Nothing goes away but presentations under the key, and the one with the given identifier. */
  ghost predicate OnlyUnder(before: set<Presentation>, after: set<Presentation>, p: Protocol, key: string,
                            id: Option<nat>)
  {
    && after <= before
    && forall q :: q in before && q !in after ==> q.protocol == p && (q.key == key || Some(q.id) == id)
  }

  function Without(ps: set<Presentation>, p: Protocol, id: nat): set<Presentation> {
    set q | q in ps && !(q.protocol == p && q.id == id)
  }

  lemma FewerAreWellListed(filesystem: string, ps: set<Presentation>, fewer: set<Presentation>)
    requires WellListed(filesystem, ps) && fewer <= ps
    ensures WellListed(filesystem, fewer)
  {
  }

  /** Removing by identifier removes one presentation. */
  lemma WithoutRemovesOne(filesystem: string, ps: set<Presentation>, q: Presentation)
    requires WellListed(filesystem, ps)
    ensures q in ps ==> Without(ps, q.protocol, q.id) == ps - {q}
  {
  }

  lemma RemovalIsUnder(start: set<Presentation>, before: set<Presentation>, after: set<Presentation>,
                       share: Presentation, path: string, id: Option<nat>)
    requires OnlyUnder(start, before, share.protocol, path, id) && share.key == path && share in start
    requires Without(start, share.protocol, share.id) == start - {share}
    requires after == before || after == Without(before, share.protocol, share.id)
    ensures OnlyUnder(start, after, share.protocol, path, id)
  {
    forall q | q in before && q !in after ensures q == share {
      assert q !in Without(start, share.protocol, share.id);
    }
  }

  // ----- What an attempt leaves behind -----

  /** What an attempt to delete `n` may do, wherever it fails: only the volume's own presentations
      and storage go away, only if the record allows it, and the storage not before every matching
      presentation. */
  ghost predicate FailsClosed(filesystem: string, n: Name, p: Protocol, shareID: Option<nat>,
                              subs: map<Name, Record>, ps: set<Presentation>,
                              subs': map<Name, Record>, ps': set<Presentation>)
  {
    && (subs' == subs || subs' == subs - {n})
    && OnlyUnder(ps, ps', p, KeyOf(p, filesystem, n), shareID)
    && (subs' != subs || ps' != ps ==> n in subs && MayDelete(subs[n], n, p))
    && (n in subs && n !in subs' ==> AllPresentationsGone(ps', p, KeyOf(p, filesystem, n)))
  }

  ghost predicate IsBacked(ps: set<Presentation>, subs: map<Name, Record>) {
    forall q :: q in ps ==> q.storage in subs
  }

  /** The storage is presented through no protocol but this one. */
  ghost predicate PresentedOnlyBy(ps: set<Presentation>, n: Name, p: Protocol) {
    forall q :: q in ps && q.storage == n ==> q.protocol == p
  }

  /** Every presentation stays backed by its storage, but for those of the deleted volume through
      another protocol, which no attempt removes: so an attempt that removes the storage leaves
      everything backed exactly if there were none. */
  lemma FailingClosedKeepsBacking(filesystem: string, n: Name, p: Protocol, shareID: Option<nat>,
                                  subs: map<Name, Record>, ps: set<Presentation>,
                                  subs': map<Name, Record>, ps': set<Presentation>)
    requires WellListed(filesystem, ps)
    requires FailsClosed(filesystem, n, p, shareID, subs, ps, subs', ps')
    ensures WellListed(filesystem, ps')
    ensures forall q :: q in ps' && q.storage in subs ==> q.storage in subs' || (q.storage == n && q.protocol != p)
    ensures IsBacked(ps, subs) ==> (IsBacked(ps', subs') <==> subs' == subs || PresentedOnlyBy(ps, n, p))
  {
    hide KeyOf;
    if subs' != subs && !PresentedOnlyBy(ps, n, p) {
      var q :| q in ps && q.storage == n && q.protocol != p;
      assert q in ps';
    }
  }

  /** A volume that is shared over both file protocols: deleting it leaves the other share alone. */
  lemma OtherProtocolIsOrphaned(filesystem: string, n: Name)
    ensures var subs := map[n := Record(true, Some(n), Some(NFS), Delete)];
            var key := KeyOf(NFS, filesystem, n);
            var ps := {Presentation(NFS, 0, key, n), Presentation(SMB, 0, key, n)};
            && WellListed(filesystem, ps) && IsBacked(ps, subs)
            && FailsClosed(filesystem, n, NFS, None, subs, ps, map[], {Presentation(SMB, 0, key, n)})
            && !IsBacked({Presentation(SMB, 0, key, n)}, map[])
  {
    var key := KeyOf(NFS, filesystem, n);
    assert Presentation(SMB, 0, key, n) in {Presentation(SMB, 0, key, n)};
    assert map[n := Record(true, Some(n), Some(NFS), Delete)] - {n} == map[];
  }

  /** Deleting such a volume succeeds, when nothing fails, and leaves a share without storage. */
  method OrphanOtherProtocol(filesystem: string, n: Name) returns (service: ControllerService, status: Status)
    requires '/' !in filesystem && n != ""
    ensures fresh(service) && service.filesystem == filesystem
    ensures status == OK && !service.Backed() && service.subvolumes == map[]
    ensures service.presentations == {Presentation(SMB, 0, KeyOf(NFS, filesystem, n), n)}
  {
    var subs := map[n := Record(true, Some(n), Some(NFS), Delete)];
    var key, id := KeyOf(NFS, filesystem, n), filesystem + "/" + n;
    var nfs, smb := Presentation(NFS, 0, key, n), Presentation(SMB, 0, key, n);
    service := new ControllerService(filesystem, _ => Works, _ => false, subs, {nfs, smb});
    SnapshotIds.SplitUndoesJoin(id, filesystem, n);
    assert id[|filesystem|] == '/';
    assert Denoted(filesystem, id, subs) == {n};
    OtherProtocolIsOrphaned(filesystem, n);
    status := service.DeleteVolume(id);
    assert smb in service.presentations;
    assert subs - {n} == map[];
  }

  // ----- Deleting the storage -----

  /** One DeleteSubvolume call, as the retry sees it: a missing subvolume is a success. */
  function DeletionCall(subs: map<Name, Record>, n: Name, o: Outcome): (map<Name, Record>, Retry.Attempt) {
    match o
    case Works => (subs - {n}, Retry.Succeeds)
    case NotFound => (subs - {n}, Retry.Succeeds)
    case Fails(retryable) => (subs, Retry.Fails(false, retryable))
    case Uncertain(committed, retryable) => (if committed then subs - {n} else subs, Retry.Fails(true, retryable))
  }

  /** The function that is retried: its calls end as the script says from `from` on. */
  function Deleting(script: nat -> Outcome, from: nat, n: Name)
    : (map<Name, Record>, nat) -> (map<Name, Record>, Retry.Attempt)
  {
    (subs: map<Name, Record>, k: nat) => DeletionCall(subs, n, script(from + k))
  }

  /** However often it is called, nothing but `n` goes away, and it has after a success. */
  lemma {:induction false} DeletingDeletesOne(script: nat -> Outcome, from: nat, n: Name,
                                              start: map<Name, Record>, k: nat)
    ensures var now := Retry.StateAfter(Deleting(script, from, n), start, k);
            && (now == start || now == start - {n})
            && (k > 0 && Retry.AttemptAt(Deleting(script, from, n), start, k - 1).Succeeds? ==> n !in now)
  {
    if k > 0 {
      DeletingDeletesOne(script, from, n, start, k - 1);
      var before := Retry.StateAfter(Deleting(script, from, n), start, k - 1);
      assert Deleting(script, from, n)(before, k - 1) == DeletionCall(before, n, script(from + (k - 1)));
      assert start - {n} - {n} == start - {n};
    }
  }

  class ControllerService {
    const filesystem: string
    const script: nat -> Outcome      // how the n-th backend call ends
    const cancelled: nat -> bool      // whether the context is done at the n-th look
    var calls: nat
    var subvolumes: map<Name, Record>
    var presentations: set<Presentation>
    var deletes: seq<Retry.Attempt>   // how the DeleteSubvolume calls ended

    constructor (filesystem: string, script: nat -> Outcome, cancelled: nat -> bool,
                 subvolumes: map<Name, Record>, presentations: set<Presentation>)
      ensures this.filesystem == filesystem && this.script == script && this.cancelled == cancelled
      ensures this.subvolumes == subvolumes && this.presentations == presentations && deletes == []
    {
      this.filesystem := filesystem;
      this.script := script;
      this.cancelled := cancelled;
      this.subvolumes := subvolumes;
      this.presentations := presentations;
      calls, deletes := 0, [];
    }

    ghost predicate Valid()
      reads this
    {
      WellListed(filesystem, presentations)
    }

    /** Every presentation has its storage. */
    ghost predicate Backed()
      reads this
    {
      IsBacked(presentations, subvolumes)
    }

    ghost predicate NothingFails()
      reads this
    {
      (forall i :: script(i) == Works) && (forall i :: !cancelled(i))
    }

    method Call() returns (o: Outcome)
      modifies this`calls
      ensures calls == old(calls) + 1 && o == script(old(calls))
    {
      o := script(calls);
      calls := calls + 1;
    }

    /** Removes a presentation by its identifier. */
    method RemovePresentation(p: Protocol, id: nat) returns (o: Outcome)
      modifies this`calls, this`presentations
      ensures o == script(old(calls)) && calls == old(calls) + 1
      ensures presentations == if o.Works? || o.NotFound? || (o.Uncertain? && o.committed)
                               then Without(old(presentations), p, id) else old(presentations)
    {
      o := Call();
      if Succeeded(o) || (o.Uncertain? && o.committed) {
        presentations := Without(presentations, p, id);
      }
    }

    method DeleteSubvolume(n: Name) returns (a: Retry.Attempt)
      modifies this`calls, this`subvolumes, this`deletes
      ensures (subvolumes, a) == DeletionCall(old(subvolumes), n, script(old(calls)))
      ensures var o := script(old(calls));
              && subvolumes == (if o.Works? || o.NotFound? || (o.Uncertain? && o.committed)
                                then old(subvolumes) - {n} else old(subvolumes))
              && (a.Succeeds? <==> o.Works? || o.NotFound?) && (a.Fails? ==> (a.uncertain <==> o.Uncertain?))
      ensures deletes == old(deletes) + [a] && calls == old(calls) + 1
    {
      var o := Call();
      var (left, ending) := DeletionCall(subvolumes, n, o);
      subvolumes, a := left, ending;
      deletes := deletes + [a];
    }

    // ----- Removing presentations -----

    /** The presentations of one protocol under one key. */
    ghost function Under(p: Protocol, key: string): set<Presentation>
      reads this
    {
      set q | q in presentations && q.protocol == p && q.key == key
    }

    lemma UnderIsGone(p: Protocol, key: string)
      requires Under(p, key) == {}
      ensures AllPresentationsGone(presentations, p, key)
    {
      forall q | q in presentations ensures !(q.protocol == p && q.key == key) {
        assert q in Under(p, key) <==> q.protocol == p && q.key == key;
      }
    }

    /** Every listed share with the path is removed or known to be absent, or the cleanup fails. */
    method DeleteShareByPath(p: Protocol, path: string) returns (status: Status)
      requires Valid()
      modifies this`calls, this`presentations
      ensures Valid() && OnlyUnder(old(presentations), presentations, p, path, None)
      ensures status == OK || status == Unavailable
      ensures status == OK ==> Under(p, path) == {}
      ensures !script(old(calls)).Works? ==> status == Unavailable && presentations == old(presentations)
      ensures (forall i :: script(i) == Works) ==> status == OK
    {
      hide WellListed;
      var listing := Call();
      if !listing.Works? { return Unavailable; }
      var shares := set q | q in presentations && q.protocol == p;
      while shares != {}
        invariant Valid() && OnlyUnder(old(presentations), presentations, p, path, None)
        invariant forall q :: q in shares ==> q in old(presentations) && q.protocol == p
        invariant forall q :: q in Under(p, path) ==> q in shares
        decreases shares
      {
        var share :| share in shares;
        shares := shares - {share};
        if share.key == path {
          ghost var before := presentations;
          WithoutRemovesOne(filesystem, old(presentations), share);
          var o := RemovePresentation(p, share.id);
          FewerAreWellListed(filesystem, before, presentations);
          RemovalIsUnder(old(presentations), before, presentations, share, path, None);
          if !Succeeded(o) { return Unavailable; }
        }
      }
      return OK;
    }

    /** The share with a known identifier goes first, then every share with the volume's path. */
    method DeleteShares(p: Protocol, path: string, shareID: Option<nat>) returns (status: Status)
      requires Valid()
      modifies this`calls, this`presentations
      ensures Valid() && OnlyUnder(old(presentations), presentations, p, path, shareID)
      ensures status == OK || status == Unavailable
      ensures status == OK ==> Under(p, path) == {}
      ensures status == OK && shareID.Some? ==> Without(presentations, p, shareID.value) == presentations
      ensures (forall i :: script(i) == Works) ==> status == OK
    {
      if shareID.Some? {
        var o := RemovePresentation(p, shareID.value);
        if !Succeeded(o) { return Unavailable; }
      }
      status := DeleteShareByPath(p, path);
    }

    /** The target or subsystem with the key, if any, is removed or known to be absent. */
    method DeleteTarget(p: Protocol, key: string) returns (status: Status)
      requires Valid() && p.IsBlock()
      modifies this`calls, this`presentations
      ensures Valid() && OnlyUnder(old(presentations), presentations, p, key, None)
      ensures status in {OK, Unavailable, Internal}
      ensures status == Unavailable <==> !Succeeded(script(old(calls)))
      ensures status == OK ==> Under(p, key) == {}
      ensures (forall i :: script(i) == Works) ==> status == OK
    {
      var lookup := Call();
      if !Succeeded(lookup) { return Unavailable; }
      if target :| target in presentations && target.protocol == p && target.key == key {
        var o := RemovePresentation(p, target.id);
        if !Succeeded(o) { return Internal; }
      }
      return OK;
    }

    // ----- Deleting volumes -----

    /** No DeleteSubvolume call follows one with an uncertain outcome. */
    ghost predicate StopsWhenUncertain(from: nat)
      reads this
    {
      forall i :: from <= i < |deletes| - 1 ==> !(deletes[i].Fails? && deletes[i].uncertain)
    }

    /** One call, and if that certainly failed, up to twelve more. */
    method DeleteWithRetry(n: Name) returns (status: Status)
      modifies this`calls, this`subvolumes, this`deletes
      ensures subvolumes == old(subvolumes) || subvolumes == old(subvolumes) - {n}
      ensures status in {OK, Unavailable, Internal} && (status == OK ==> n !in subvolumes)
      ensures status == Unavailable <==> script(old(calls)).Uncertain?
      ensures old(deletes) <= deletes && |deletes| <= |old(deletes)| + 13
      ensures StopsWhenUncertain(|old(deletes)|)
      ensures |deletes| > |old(deletes)| && (status == OK <==> deletes[|deletes| - 1].Succeeds?)
      ensures (forall i :: script(i) == Works) && (forall i :: !cancelled(i)) ==> status == OK
    {
      hide Deleting, Retry.StateAfter, Retry.AttemptAt, Retry.AreDue;
      var first := DeleteSubvolume(n);
      if first.Succeeds? { return OK; }
      if first.uncertain { return Unavailable; }
      var fn := new Retry.Function(Deleting(script, calls, n), subvolumes);
      var outcome, _ := Retry.WithRetry(Retry.DELETION_CONFIG, fn, cancelled);
      DeletingDeletesOne(script, calls, n, subvolumes, |fn.attempts|);
      subvolumes, calls, deletes := fn.state, calls + |fn.attempts|, deletes + fn.attempts;
      status := if outcome == Retry.Success then OK else Internal;
    }

    /** Whether the subvolume may go, as every protocol's path checks before it touches anything. */
    method VerifyOwnership(n: Name, p: Protocol) returns (status: Status, proceed: bool)
      modifies this`calls
      ensures proceed <==> status == OK && n in subvolumes && MayDelete(subvolumes[n], n, p)
      ensures status == OK && !proceed ==> n !in subvolumes || subvolumes[n].strategy.Retain?
      ensures script(old(calls)).Works? && n in subvolumes && MayDelete(subvolumes[n], n, p) ==> proceed
      ensures Succeeded(script(old(calls))) && !proceed ==> status == StatusWithout(subvolumes, n, Some(p))
      ensures !Succeeded(script(old(calls))) <==> status == Unavailable
      ensures status in {OK, Unavailable, FailedPrecondition}
    {
      var get := Call();
      if !Succeeded(get) { return Unavailable, false; }
      if n !in subvolumes { return OK, false; }
      if !ValidateDeletionOwnership(subvolumes[n], n, Some(p)) { return FailedPrecondition, false; }
      return OK, !subvolumes[n].strategy.Retain?;
    }

    method DeleteNFSVolume(n: Name, shareID: Option<nat>) returns (status: Status)
      requires Valid()
      modifies this`calls, this`subvolumes, this`presentations, this`deletes
      ensures FailsClosed(filesystem, n, NFS, shareID, old(subvolumes), old(presentations), subvolumes, presentations)
      ensures status != InvalidArgument && (status == OK && n in subvolumes ==> subvolumes[n].strategy.Retain?)
      ensures n in old(subvolumes) && MayDelete(old(subvolumes)[n], n, NFS) && NothingFails() ==>
                status == OK && n !in subvolumes
      ensures NothingFails() && !(n in old(subvolumes) && MayDelete(old(subvolumes)[n], n, NFS)) ==>
                status == StatusWithout(old(subvolumes), n, Some(NFS))
      ensures old(deletes) <= deletes && |deletes| <= |old(deletes)| + 13 && StopsWhenUncertain(|old(deletes)|)
      ensures deletes != old(deletes) ==> (status == OK <==> deletes[|deletes| - 1].Succeeds?)
    {
      hide WellListed;
      var proceed;
      status, proceed := VerifyOwnership(n, NFS);
      if !proceed { return; }
      status := DeleteShares(NFS, KeyOf(NFS, filesystem, n), shareID);
      if status != OK { return; }
      UnderIsGone(NFS, KeyOf(NFS, filesystem, n));
      status := DeleteWithRetry(n);
    }

    /** SMB deletion does not retry. */
    method DeleteSMBVolume(n: Name, shareID: Option<nat>) returns (status: Status)
      requires Valid()
      modifies this`calls, this`subvolumes, this`presentations, this`deletes
      ensures FailsClosed(filesystem, n, SMB, shareID, old(subvolumes), old(presentations), subvolumes, presentations)
      ensures status != InvalidArgument && (status == OK && n in subvolumes ==> subvolumes[n].strategy.Retain?)
      ensures n in old(subvolumes) && MayDelete(old(subvolumes)[n], n, SMB) && NothingFails() ==>
                status == OK && n !in subvolumes
      ensures NothingFails() && !(n in old(subvolumes) && MayDelete(old(subvolumes)[n], n, SMB)) ==>
                status == StatusWithout(old(subvolumes), n, Some(SMB))
      ensures old(deletes) <= deletes && |deletes| <= |old(deletes)| + 1 && StopsWhenUncertain(|old(deletes)|)
      ensures deletes != old(deletes) ==> status == if deletes[|deletes| - 1].Succeeds? then OK else Internal
    {
      hide WellListed;
      var proceed;
      status, proceed := VerifyOwnership(n, SMB);
      if !proceed { return; }
      status := DeleteShares(SMB, KeyOf(SMB, filesystem, n), shareID);
      if status != OK { return; }
      UnderIsGone(SMB, KeyOf(SMB, filesystem, n));
      var a := DeleteSubvolume(n);
      status := if a.Succeeds? then OK else Internal;
    }

    method DeleteISCSIVolume(n: Name) returns (status: Status)
      requires Valid()
      modifies this`calls, this`subvolumes, this`presentations, this`deletes
      ensures FailsClosed(filesystem, n, ISCSI, None, old(subvolumes), old(presentations), subvolumes, presentations)
      ensures status != InvalidArgument && (status == OK && n in subvolumes ==> subvolumes[n].strategy.Retain?)
      ensures n in old(subvolumes) && MayDelete(old(subvolumes)[n], n, ISCSI) && NothingFails() ==>
                status == OK && n !in subvolumes
      ensures NothingFails() && !(n in old(subvolumes) && MayDelete(old(subvolumes)[n], n, ISCSI)) ==>
                status == StatusWithout(old(subvolumes), n, Some(ISCSI))
      ensures old(deletes) <= deletes && |deletes| <= |old(deletes)| + 13 && StopsWhenUncertain(|old(deletes)|)
      ensures deletes != old(deletes) ==> (status == OK <==> deletes[|deletes| - 1].Succeeds?)
    {
      hide WellListed;
      var proceed;
      status, proceed := VerifyOwnership(n, ISCSI);
      if !proceed { return; }
      status := DeleteTarget(ISCSI, KeyOf(ISCSI, filesystem, n));
      if status != OK { return; }
      UnderIsGone(ISCSI, KeyOf(ISCSI, filesystem, n));
      status := DeleteWithRetry(n);
    }

    method DeleteNVMeOFVolume(n: Name) returns (status: Status)
      requires Valid()
      modifies this`calls, this`subvolumes, this`presentations, this`deletes
      ensures FailsClosed(filesystem, n, NVMeOF, None, old(subvolumes), old(presentations), subvolumes, presentations)
      ensures status != InvalidArgument && (status == OK && n in subvolumes ==> subvolumes[n].strategy.Retain?)
      ensures n in old(subvolumes) && MayDelete(old(subvolumes)[n], n, NVMeOF) && NothingFails() ==>
                status == OK && n !in subvolumes
      ensures NothingFails() && !(n in old(subvolumes) && MayDelete(old(subvolumes)[n], n, NVMeOF)) ==>
                status == StatusWithout(old(subvolumes), n, Some(NVMeOF))
      ensures old(deletes) <= deletes && |deletes| <= |old(deletes)| + 13 && StopsWhenUncertain(|old(deletes)|)
      ensures deletes != old(deletes) ==> (status == OK <==> deletes[|deletes| - 1].Succeeds?)
    {
      hide WellListed;
      var proceed;
      status, proceed := VerifyOwnership(n, NVMeOF);
      if !proceed { return; }
      status := DeleteTarget(NVMeOF, KeyOf(NVMeOF, filesystem, n));
      if status != OK { return; }
      UnderIsGone(NVMeOF, KeyOf(NVMeOF, filesystem, n));
      status := DeleteWithRetry(n);
    }

    /** The volume that the ID denotes, if it may be looked at for deletion. A plain name may find any
        of the subvolumes that record it. */
    method LookupDeletionVolume(id: string) returns (status: Status, found: Option<Name>)
      modifies this`calls
      ensures status in {OK, InvalidArgument, FailedPrecondition, Unavailable} && (found.Some? ==> status == OK)
      ensures status == InvalidArgument <==> '/' in id && SnapshotIds.SplitSubvolumeID(id).None?
      ensures status == OK && found.None? ==> Denoted(filesystem, id, subvolumes) == {}
      ensures status != InvalidArgument ==> (status == Unavailable <==> !Succeeded(script(old(calls))))
      ensures status == FailedPrecondition ==>
                exists n :: n in subvolumes && n in Denoted(filesystem, id, subvolumes) &&
                            StatusWithout(subvolumes, n, subvolumes[n].protocol) == FailedPrecondition
      ensures found.Some? ==>
                && found.value in Denoted(filesystem, id, subvolumes) && found.value in subvolumes
                && found.value == ProperName(id)
                && subvolumes[found.value].protocol.Some?
                && ValidateDeletionOwnership(subvolumes[found.value], found.value, subvolumes[found.value].protocol)
      ensures status == InvalidArgument ==> Denoted(filesystem, id, subvolumes) == {}
      ensures script(old(calls)).Works? ==>
                forall n :: n in subvolumes && Denoted(filesystem, id, subvolumes) == {n} ==>
                              Proven(subvolumes[n], n) ==> found == Some(n)
    {
      if '/' in id && SnapshotIds.SplitSubvolumeID(id).None? { return InvalidArgument, None; }
      var get := Call();
      if !Succeeded(get) { return Unavailable, None; }
      if n :| n in Denoted(filesystem, id, subvolumes) {
        var r := subvolumes[n];
        if !ValidateDeletionOwnership(r, n, r.protocol) { return FailedPrecondition, None; }
        if r.protocol.None? { return FailedPrecondition, None; }
        ProvenIsProper(filesystem, id, subvolumes, n);
        return OK, Some(n);
      }
      return OK, None;
    }

    /** Deletion is fail-closed. Whatever fails, storage goes away only after managed, name, protocol
        and a deleting strategy were proven and every matching presentation was gone; nothing else
        changes; every presentation keeps its storage, but for those of the deleted volume through
        another protocol than the recorded one; success means gone, retained or absent; and what is
        left can be deleted by a later attempt that meets no errors. */
    method DeleteVolume(id: string) returns (status: Status)
      requires Valid()
      modifies this`calls, this`subvolumes, this`presentations, this`deletes
      ensures var n := ProperName(id);
              && Valid()
              && (subvolumes == old(subvolumes) || subvolumes == old(subvolumes) - {n})
              && presentations <= old(presentations)
              && (subvolumes != old(subvolumes) || presentations != old(presentations) ==>
                    n in Denoted(filesystem, id, old(subvolumes)) && Proven(old(subvolumes)[n], n))
              && (forall q :: q in old(presentations) && q !in presentations ==>
                    && old(subvolumes)[n].protocol == Some(q.protocol) && q.key == KeyOf(q.protocol, filesystem, n)
                    && if q.protocol.ISCSI? then ToLower(q.storage) == ToLower(n) else q.storage == n)
              && (forall q :: q in presentations && q.storage in old(subvolumes) && q.storage !in subvolumes ==>
                    q.storage == n && old(subvolumes)[n].protocol != Some(q.protocol))
              && (subvolumes != old(subvolumes) ==>
                    AllPresentationsGone(presentations, old(subvolumes)[n].protocol.value,
                                         KeyOf(old(subvolumes)[n].protocol.value, filesystem, n)))
              && (old(Backed()) ==>
                    (Backed() <==> subvolumes == old(subvolumes) ||
                                   PresentedOnlyBy(old(presentations), n, old(subvolumes)[n].protocol.value)))
      ensures status == InvalidArgument <==> id == "" || ('/' in id && SnapshotIds.SplitSubvolumeID(id).None?)
      ensures var n := ProperName(id);
              status == OK && n in Denoted(filesystem, id, subvolumes) ==> subvolumes[n].strategy.Retain?
      ensures var n := ProperName(id);
              && id != "" && NothingFails()
              && n in old(subvolumes) && Proven(old(subvolumes)[n], n)
              && Denoted(filesystem, id, old(subvolumes)) == {n}
              ==> status == OK && n !in subvolumes
      ensures NothingFails() && status != InvalidArgument && Denoted(filesystem, id, old(subvolumes)) == {} ==>
                status == OK && subvolumes == old(subvolumes) && presentations == old(presentations)
      ensures forall n ::
                n in old(subvolumes) && NothingFails() && status != InvalidArgument &&
                Denoted(filesystem, id, old(subvolumes)) == {n} && !Proven(old(subvolumes)[n], n) ==>
                  && status == StatusWithout(old(subvolumes), n, old(subvolumes)[n].protocol)
                  && subvolumes == old(subvolumes) && presentations == old(presentations)
      ensures old(deletes) <= deletes && |deletes| <= |old(deletes)| + 13 && StopsWhenUncertain(|old(deletes)|)
      ensures deletes != old(deletes) ==> (status == OK <==> deletes[|deletes| - 1].Succeeds?)
    {
      hide WellListed, KeyOf, ToLower, Denoted, ProperName, SnapshotIds.SplitSubvolumeID;
      if id == "" { return InvalidArgument; }
      var found;
      status, found := LookupDeletionVolume(id);
      if found.None? { return; }
      var n := found.value;
      match subvolumes[n].protocol.value {
        case NFS => status := DeleteNFSVolume(n, None);
        case SMB => status := DeleteSMBVolume(n, None);
        case ISCSI => status := DeleteISCSIVolume(n);
        case NVMeOF => status := DeleteNVMeOFVolume(n);
      }
      FailingClosedKeepsBacking(filesystem, n, old(subvolumes)[n].protocol.value, None,
                                old(subvolumes), old(presentations), subvolumes, presentations);
      forall q | q in old(presentations) && q !in presentations
        ensures if q.protocol.ISCSI? then ToLower(q.storage) == ToLower(n) else q.storage == n
      {
        ListedUnderKey(filesystem, old(presentations), q);
        KeyTellsVolumes(q.protocol, filesystem, q.storage, n);
      }
    }
  }
}
