/** The single-writer check as the node service runs it, and the bookkeeping of test mode, which
    records successful publications because it makes no mounts. Target paths are taken after
    `filepath.Clean`. */
module NodePublish {
  type Volume = string
  type Path = string

  datatype Code = OK | InvalidArgument | Internal | FailedPrecondition

  /** What reading the host mount table gave. */
  datatype HostRefs = HostRefs(refs: seq<Path>) | Unreadable

  datatype Request = Request(volume: Volume, staging: Path, target: Path, single: bool)

  class NodeService {
    const testMode: bool
    var testPublications: map<Volume, set<Path>>

    /** A volume has an entry exactly while it is published somewhere. */
    ghost predicate Valid()
      reads this
    {
      forall v :: v in testPublications ==> testPublications[v] != {}
    }

    /** Where the volume is published, according to the record. */
    function Recorded(v: Volume): set<Path>
      reads this
    {
      if v in testPublications then testPublications[v] else {}
    }

    constructor (testMode: bool)
      ensures Valid() && this.testMode == testMode && testPublications == map[]
    {
      this.testMode := testMode;
      testPublications := map[];
    }

    /** Succeeds exactly when the request is not a single-writer one, or nothing but its target is
        published; otherwise says why not. */
    method CheckSingleWriterPublication(req: Request, host: HostRefs) returns (code: Code)
      ensures code == OK <==>
              || !req.single
              || (testMode && Recorded(req.volume) <= {req.target})
              || (!testMode && req.staging != "" && host.HostRefs? &&
                  forall ref :: ref in host.refs ==> ref == req.target)
      ensures code == InvalidArgument <==> req.single && !testMode && req.staging == ""
      ensures code == Internal <==> req.single && !testMode && req.staging != "" && host.Unreadable?
    {
      if !req.single {
        return OK;
      }
      var refs: seq<Path> := [];
      if testMode {
        if req.volume in testPublications {
          var targets := testPublications[req.volume];
          while targets != {}
            invariant targets <= testPublications[req.volume]
            invariant forall t :: t in testPublications[req.volume] <==> t in targets || t in refs
            decreases targets
          {
            var target :| target in targets;
            refs := refs + [target];
            targets := targets - {target};
          }
        }
        assert forall t :: t in refs <==> t in Recorded(req.volume);
      } else {
        if req.staging == "" {
          return InvalidArgument;
        }
        if host.Unreadable? {
          return Internal;
        }
        refs := host.refs;
      }
      for i := 0 to |refs|
        invariant forall j :: 0 <= j < i ==> refs[j] == req.target
      {
        if refs[i] != req.target {
          assert refs[i] in refs;
          return FailedPrecondition;
        }
      }
      return OK;
    }

    /** A publish in test mode: the check, then the protocol's work, then the record. A successful
        single-writer publish leaves the volume published at its target only. */
    method PublishInTestMode(req: Request, works: bool) returns (ok: bool)
      requires Valid() && testMode
      modifies this
      ensures Valid()
      ensures ok <==> works && (req.single ==> old(Recorded(req.volume)) <= {req.target})
      ensures forall v :: Recorded(v) ==
                if ok && v == req.volume then old(Recorded(v)) + {req.target} else old(Recorded(v))
      ensures ok && req.single ==> Recorded(req.volume) == {req.target}
    {
      var code := CheckSingleWriterPublication(req, Unreadable);
      if code != OK {
        return false;
      }
      if works {
        var targets := if req.volume in testPublications then testPublications[req.volume] else {};
        testPublications := testPublications[req.volume := targets + {req.target}];
      }
      return works;
    }

    /** An unpublish in test mode forgets the target, and the volume with its last target. */
    method UnpublishInTestMode(volume: Volume, target: Path)
      requires Valid() && testMode
      modifies this
      ensures Valid()
      ensures forall v :: Recorded(v) == if v == volume then old(Recorded(v)) - {target} else old(Recorded(v))
    {
      if volume in testPublications {
        var targets := testPublications[volume] - {target};
        testPublications := testPublications[volume := targets];
        if |targets| == 0 {
          testPublications := testPublications - {volume};
        }
      }
    }
  }
}
