/** The two operations of the controller that hold `identityMu`: writing an identity and rolling a
    creation back. They are the steps Persist, WriteErrs, Verify, RollbackRead and Delete of
    `CreateSteps`, here as the sequence of backend calls that one goroutine makes. */
module IdentityWrites {
  import opened VolumeIdentity

  /** How a backend write ends: it works, or errs without or after committing. */
  datatype Write = Works | Errs | ErrsCommitted

  datatype Status = OK | Aborted | Internal | OperationError

  /** The controller's copy of a subvolume. */
  class Subvolume {
    const name: Name
    var properties: Props

    constructor (name: Name, properties: Props)
      ensures this.name == name && this.properties == properties
    {
      this.name := name;
      this.properties := properties;
    }
  }

  /** Merging one property map into another. */
  method MergeProperties(base: Props, extra: Props) returns (merged: Props)
    ensures merged == base + extra
  {
    merged := base;
    var todo := extra.Keys;
    while todo != {}
      invariant todo <= extra.Keys
      invariant merged == base + (extra - todo)
      decreases todo
    {
      var k :| k in todo;
      merged := merged[k := extra[k]];
      todo := todo - {k};
    }
    assert extra - {} == extra;
  }

  method ContainsProperties(properties: Props, expected: Props) returns (r: bool)
    ensures r <==> PropertiesContain(properties, expected)
  {
    var todo := expected.Keys;
    while todo != {}
      invariant todo <= expected.Keys
      invariant forall k :: k in expected && k !in todo ==> Get(properties, k) == expected[k]
      decreases todo
    {
      var k :| k in todo;
      if Get(properties, k) != expected[k] { return false; }
      todo := todo - {k};
    }
    return true;
  }

  lemma NothingIsHeld(base: Props, identity: Props)
    ensures !PropertiesContain(map[], Wanted(map[], base, identity))
  {
    assert Wanted(map[], base, identity)[ManagedBy] == ManagedByNasty;
  }

  class ControllerService {
    var subvolumes: map<Name, Props>

    constructor ()
      ensures subvolumes == map[]
    {
      subvolumes := map[];
    }

    /** The backend call: it merges the properties, and a missing subvolume is an error. */
    method SetSubvolumeProperties(name: Name, props: Props, write: Write) returns (ok: bool)
      modifies this`subvolumes
      ensures ok <==> write.Works? && name in old(subvolumes)
      ensures subvolumes == if name in old(subvolumes) && !write.Errs?
                            then old(subvolumes)[name := old(subvolumes)[name] + props] else old(subvolumes)
    {
      if name in subvolumes && !write.Errs? {
        var merged := MergeProperties(subvolumes[name], props);
        subvolumes := subvolumes[name := merged];
      }
      ok := write.Works? && name in subvolumes;
    }

    /** The properties to write, built up step by step. */
    method WantedProperties(local: Props, base: Props, identity: Props) returns (props: Props)
      ensures props == Wanted(local, base, identity)
    {
      props := MergeProperties(base, identity);
      props := props[ManagedBy := ManagedByNasty];
      if Get(local, CreatedAt) != Empty { props := props[CreatedAt := Get(local, CreatedAt)]; }
    }

    /** After a failed write the subvolume is read back. Internal means that the write certainly did
        not happen. */
    method VerifyFailedWrite(subvol: Subvolume, props: Props, readable: bool) returns (status: Status)
      modifies subvol`properties
      ensures var n := subvol.name;
              && status in {Internal, Aborted}
              && (status == Internal <==> readable && n in subvolumes && !PropertiesContain(subvolumes[n], props))
              && subvol.properties == if readable && n in subvolumes then subvolumes[n] else old(subvol.properties)
    {
      if !readable || subvol.name !in subvolumes { return Aborted; }
      subvol.properties := subvolumes[subvol.name];
      var committed := ContainsProperties(subvol.properties, props);
      return if committed then Aborted else Internal;
    }

    /** Success means that the subvolume is owned, or that the copy read before was, or that there
        was nothing to write. Internal means that the write certainly did not happen; every other
        failure is Aborted. */
    method PersistVolumeIdentity(subvol: Subvolume, hasBase: bool, base: Props, identity: Props, persist: bool,
                                 write: Write, readable: bool)
      returns (status: Status)
      requires IdentityFor(identity, subvol.name)
      modifies this`subvolumes, subvol`properties
      ensures var n, was, local := subvol.name, old(subvolumes), old(subvol.properties);
              var wanted := Wanted(local, if hasBase then base else map[], identity);
              if (!persist && !hasBase) || PropertiesContain(local, wanted) then
                status == OK && subvolumes == was && subvol.properties == local
              else
                && subvolumes == (if n in was && !write.Errs? then was[n := was[n] + wanted] else was)
                && (status == OK <==> n in was && write.Works?)
                && (status == Internal <==>
                      status != OK && readable && n in was && !PropertiesContain(subvolumes[n], wanted))
                && (status == Aborted <==> status != OK && status != Internal)
                && (status == OK ==> HasCompleteV2Identity(subvolumes[n], n) && subvol.properties == wanted)
                && (status != OK ==> subvol.properties == if readable && n in was then subvolumes[n] else local)
    {
      hide HasCompleteV2Identity, IdentityFor, PropertiesContain;
      if !persist && !hasBase { return OK; }
      ghost var local := subvol.properties;
      hide Wanted, Get;
      var props := WantedProperties(subvol.properties, if hasBase then base else map[], identity);
      var held := ContainsProperties(subvol.properties, props);
      if held { return OK; }
      var ok := SetSubvolumeProperties(subvol.name, props, write);
      if ok {
        subvol.properties := props;
        MergeContains(old(subvolumes)[subvol.name], props);
        WantedOwns(subvolumes[subvol.name], local, if hasBase then base else map[], identity, subvol.name);
        return OK;
      }
      status := VerifyFailedWrite(subvol, props, readable);
    }

    /** A rollback never deletes a subvolume with a complete identity for its own name, and does
        nothing after an Aborted operation. */
    method RollbackCreatedSubvolume(name: Name, operation: Status, readable: bool, delete: Write)
      returns (status: Status)
      requires operation != OK
      modifies this`subvolumes
      ensures operation == Aborted || !readable ==> status == Aborted && subvolumes == old(subvolumes)
      ensures name in old(subvolumes) && HasCompleteV2Identity(old(subvolumes)[name], name) ==>
                status == Aborted && subvolumes == old(subvolumes)
      ensures operation != Aborted && readable &&
              name in old(subvolumes) && !HasCompleteV2Identity(old(subvolumes)[name], name) ==>
                && subvolumes == (if delete.Errs? then old(subvolumes) else old(subvolumes) - {name})
                && status == if delete.Works? then operation else Internal
      ensures operation != Aborted && readable && name !in old(subvolumes) ==>
                status == operation && subvolumes == old(subvolumes)
    {
      if operation == Aborted { return operation; }
      if readable && name in subvolumes && HasCompleteV2Identity(subvolumes[name], name) { return Aborted; }
      if !readable { return Aborted; }
      if name !in subvolumes { return operation; }
      if !delete.Errs? { subvolumes := subvolumes - {name}; }
      return if delete.Works? then operation else Internal;
    }

    /** The end of every create and clone: write the identity of a subvolume this call made, and
        roll back if that fails. Afterwards either the call succeeded and the subvolume is owned;
        or the outcome is Aborted and the subvolume is there, with whatever the write left; or
        the write certainly did not happen, and the subvolume is gone or its deletion erred. */
    method PersistOrRollBack(subvol: Subvolume, base: Props, identity: Props, write: Write, readable: bool,
                             rollbackReadable: bool, delete: Write)
      returns (status: Status)
      requires IdentityFor(identity, subvol.name) && subvol.name in subvolumes && subvol.properties == map[]
      modifies this`subvolumes, subvol`properties
      ensures forall m :: m != subvol.name ==>
                (m in subvolumes <==> m in old(subvolumes)) && (m in subvolumes ==> subvolumes[m] == old(subvolumes)[m])
      ensures status == OK ==> subvol.name in subvolumes && HasCompleteV2Identity(subvolumes[subvol.name], subvol.name)
      ensures status == Aborted ==> subvol.name in subvolumes
      ensures !write.Errs? ==> subvol.name in subvolumes && HasCompleteV2Identity(subvolumes[subvol.name], subvol.name)
      ensures subvol.name !in subvolumes ==> write.Errs? && readable && rollbackReadable && !delete.Errs?
      ensures var n, was := subvol.name, old(subvolumes);
              var undone := write.Errs? && readable && rollbackReadable && !HasCompleteV2Identity(was[n], n);
              && status == (if write.Works? then OK else if undone then Internal else Aborted)
              && subvolumes == if !write.Errs? then was[n := was[n] + Wanted(map[], base, identity)]
                               else if undone && !delete.Errs? then was - {n} else was
    {
      hide PropertiesContain;
      var wanted := Wanted(map[], base, identity);
      NothingIsHeld(base, identity);
      MergeContains(subvolumes[subvol.name], wanted);
      WantedOwns(subvolumes[subvol.name] + wanted, map[], base, identity, subvol.name);
      if PropertiesContain(subvolumes[subvol.name], wanted) {
        WantedOwns(subvolumes[subvol.name], map[], base, identity, subvol.name);
      }
      hide Wanted, HasCompleteV2Identity, IdentityFor;
      status := PersistVolumeIdentity(subvol, true, base, identity, true, write, readable);
      if status != OK { status := RollbackCreatedSubvolume(subvol.name, status, rollbackReadable, delete); }
    }
  }
}
