/** Ownership of backend subvolumes: the properties that record it, and the decisions the
    controller takes about a subvolume it finds or clones. */
module VolumeIdentity {
  import Protocols

  /** A property value or a name, up to equality: the driver compares these strings with each
      other and with the few named here, and looks no further into them. */
  datatype Text = Empty | ManagedByNasty | Version2 | Yes | Number(n: nat) | Other(id: nat)

  type Name = Text

  /** The properties the driver reads or writes, by role. */
  datatype Key =
    | ManagedBy | CSIVolumeName | Protocol | RequestName | VolumeUUID | IdentityVersion
    | CreatedAt | CapacityBytes | DeleteStrategy | PVCName | PVCNamespace | StorageClass
    | Adoptable | ClusterID | Encrypted

  type Props = map<Key, Text>

  /** Reading a missing key gives the empty string, as Go maps do. */
  function Get(p: Props, k: Key): Text { if k in p then p[k] else Empty }

  /** Where a new volume's content comes from. */
  datatype Source = NoSource | FromVolume(volume: Name) | FromSnapshot(volume: Name, snapshot: Text)

  /** A CreateVolume request, with the backend names its parameters resolve to. `fixed` holds the
      properties the class and the claim give the volume. */
  datatype Request = Request(
    name: Text,
    backendName: Name,
    legacyName: Name,
    protocol: Text,
    kind: Protocols.Protocol,
    source: Source,
    capacity: nat,      // required bytes, already normalised
    limit: nat,         // zero for none
    adoptExisting: bool,
    pvcName: Text,
    pvcNamespace: Text,
    fixed: Props)

  datatype Code = FailedPrecondition | AlreadyExists

  datatype Decision = Identity(properties: Props) | Refused(code: Code)

  // ----- Identities -----

  /** The identity written on a subvolume: it keeps the UUID it has, if any. */
  function IdentityProperties(existing: Props, requestName: Text, backendName: Name, protocol: Text,
                              uuid: Text): Props
  {
    map[CSIVolumeName := backendName,
        Protocol := protocol,
        RequestName := requestName,
        VolumeUUID := if Get(existing, VolumeUUID) == Empty then uuid else Get(existing, VolumeUUID),
        IdentityVersion := Version2]
  }

  predicate HasCompleteV2Identity(p: Props, backendName: Name) {
    && Get(p, ManagedBy) == ManagedByNasty
    && Get(p, IdentityVersion) == Version2
    && Get(p, RequestName) != Empty && Get(p, VolumeUUID) != Empty
    && Get(p, Protocol) != Empty
    && Get(p, CSIVolumeName) == backendName
  }

  predicate LegacyPVCIdentityMatches(req: Request, p: Props) {
    || Get(p, CSIVolumeName) == req.name
    || (&& req.pvcName != Empty && req.pvcNamespace != Empty
        && Get(p, PVCName) == req.pvcName && Get(p, PVCNamespace) == req.pvcNamespace)
  }

  /** What a clone's destination must record to be taken over under its legacy name. */
  predicate ProvesLegacyOwnership(req: Request, p: Props) {
    Get(p, ManagedBy) == ManagedByNasty && Get(p, Protocol) == req.protocol && LegacyPVCIdentityMatches(req, p)
  }

  /** Whether, and with which identity, a request may use the subvolume it found under `n`. */
  function DecideExisting(req: Request, n: Name, p: Props, uuid: Text): Decision {
    var managed := Get(p, ManagedBy) == ManagedByNasty;
    var identity := IdentityProperties(p, req.name, n, req.protocol, uuid);
    if managed && Get(p, IdentityVersion) == Version2 then
      if Get(p, RequestName) != req.name || Get(p, Protocol) != req.protocol then Refused(FailedPrecondition)
      else Identity(identity)
    else if managed then
      var legacyMatch := Get(p, Protocol) == req.protocol && LegacyPVCIdentityMatches(req, p);
      if !legacyMatch && !req.adoptExisting then Refused(AlreadyExists) else Identity(identity)
    else if !req.adoptExisting then Refused(AlreadyExists)
    else Identity(identity)
  }

  const COMPARED_KEYS := {ManagedBy, CSIVolumeName, Protocol, CreatedAt, CapacityBytes, PVCName, PVCNamespace,
                          StorageClass}

  /** Whether a clone's destination still carries the identity copied from its source. */
  predicate CloneCarriesSourceIdentity(destination: Props, source: Props) {
    if Get(source, VolumeUUID) != Empty && Get(destination, VolumeUUID) == Get(source, VolumeUUID) then true
    else if Get(source, RequestName) != Empty && Get(destination, RequestName) == Get(source, RequestName)
            && Get(source, CSIVolumeName) != Empty && Get(destination, CSIVolumeName) == Get(source, CSIVolumeName)
    then true
    else if Get(source, IdentityVersion) == Version2 then false
    else if
      || Get(destination, IdentityVersion) != Empty || Get(destination, RequestName) != Empty
      || Get(destination, VolumeUUID) != Empty then false
    else
      && (forall k :: k in COMPARED_KEYS && Get(source, k) != Empty ==> Get(destination, k) == Get(source, k))
      && Get(source, ManagedBy) == ManagedByNasty && Get(source, CSIVolumeName) != Empty
      && Get(source, Protocol) != Empty
  }

  /** What a clone attempt has gathered by the time it classifies its destination. */
  datatype CloneFacts = CloneFacts(
    source: Props,
    sourceExists: bool,
    existed: bool,    // the destination was there when it was chosen
    legacy: bool,     // it was chosen under its legacy name
    created: bool)    // this attempt created the destination

  predicate CarriesCopy(req: Request, p: Props, facts: CloneFacts)
    requires req.source != NoSource
  {
    if facts.sourceExists then CloneCarriesSourceIdentity(p, facts.source)
    else HasCompleteV2Identity(p, req.source.volume) && Get(p, Protocol) == req.protocol
  }

  /** The identity a clone's destination `n` gets. A new identity has the new `uuid`. */
  function ClassifyClone(req: Request, n: Name, p: Props, facts: CloneFacts, uuid: Text): Decision
    requires req.source != NoSource
  {
    var newIdentity := IdentityProperties(map[], req.name, n, req.protocol, uuid);
    var kept := IdentityProperties(p, req.name, n, req.protocol, uuid);
    if facts.created || !facts.existed then Identity(newIdentity)
    else if Get(p, ManagedBy) == ManagedByNasty && Get(p, IdentityVersion) == Version2
            && Get(p, RequestName) == req.name && Get(p, Protocol) == req.protocol then
      Identity(kept)
    else if CarriesCopy(req, p, facts) && !facts.legacy then Identity(newIdentity)
    else if facts.legacy then
      if !ProvesLegacyOwnership(req, p) then Refused(AlreadyExists)
      else if CarriesCopy(req, p, facts) then Identity(newIdentity)
      else Identity(kept)
    else Refused(AlreadyExists)
  }

  // ----- Writing an identity -----

  predicate PropertiesContain(p: Props, expected: Props) {
    forall k :: k in expected ==> Get(p, k) == expected[k]
  }

  /** What `persistVolumeIdentity` wants stored: the base, the identity, the ownership mark, and
      the creation time that its copy of the subvolume has. */
  function Wanted(local: Props, base: Props, identity: Props): Props {
    var props := base + identity + map[ManagedBy := ManagedByNasty];
    if Get(local, CreatedAt) != Empty then props[CreatedAt := Get(local, CreatedAt)] else props
  }

  const IDENTITY_KEYS := {CSIVolumeName, Protocol, RequestName, VolumeUUID, IdentityVersion}

  /** An identity for this subvolume name, with nothing missing. */
  predicate IdentityFor(identity: Props, n: Name) {
    && identity.Keys == IDENTITY_KEYS
    && identity[CSIVolumeName] == n && identity[IdentityVersion] == Version2
    && identity[Protocol] != Empty && identity[RequestName] != Empty && identity[VolumeUUID] != Empty
  }

  // ----- What the decisions promise -----

  /** Whatever the base and the local copy are, and whatever else the stored properties hold, a
      subvolume that contains the wanted properties is owned under its own name, with exactly the
      identity that was decided. */
  lemma WantedOwns(stored: Props, local: Props, base: Props, identity: Props, n: Name)
    requires IdentityFor(identity, n) && PropertiesContain(stored, Wanted(local, base, identity))
    ensures HasCompleteV2Identity(stored, n)
    ensures forall k :: k in identity ==> Get(stored, k) == identity[k]
  {
    var w := Wanted(local, base, identity);
    assert w[ManagedBy] == ManagedByNasty;
    forall k | k in identity ensures k in w && w[k] == identity[k] {
      assert k in IDENTITY_KEYS;
    }
  }

  /** And a subvolume is owned only if it contains what would have been stored for some identity. */
  lemma OwnedIff(p: Props, n: Name)
    ensures HasCompleteV2Identity(p, n) <==>
              exists identity :: IdentityFor(identity, n) && PropertiesContain(p, Wanted(map[], map[], identity))
  {
    var recorded := IdentityProperties(p, Get(p, RequestName), n, Get(p, Protocol), Empty);
    if HasCompleteV2Identity(p, n) {
      assert IdentityFor(recorded, n) && PropertiesContain(p, Wanted(map[], map[], recorded));
    }
    forall identity | IdentityFor(identity, n) && PropertiesContain(p, Wanted(map[], map[], identity))
      ensures HasCompleteV2Identity(p, n)
    {
      WantedOwns(p, map[], map[], identity, n);
    }
  }

  lemma MergeContains(stored: Props, wanted: Props)
    ensures PropertiesContain(stored + wanted, wanted)
  {
  }

  /** A request accepts a subvolume that somebody owns exactly when it is the owner, and then the
      identity it goes on with is the one that is stored. */
  lemma DecideExistingKeepsOwners(req: Request, n: Name, p: Props, uuid: Text)
    requires HasCompleteV2Identity(p, n)
    ensures DecideExisting(req, n, p, uuid).Identity? <==>
              Get(p, RequestName) == req.name && Get(p, Protocol) == req.protocol
    ensures DecideExisting(req, n, p, uuid).Identity? ==>
              PropertiesContain(p, DecideExisting(req, n, p, uuid).properties)
  {
  }

  /** Who may use an existing subvolume, field by field. With the v2 mark: the request that it
      records, over the protocol that it records. Managed without the mark: a class that adopts, or
      the recorded protocol together with the request's name or its whole claim, name and namespace.
      Unmanaged: a class that adopts. Whoever is accepted keeps the UUID that is there. */
  lemma DecideExistingIff(req: Request, n: Name, p: Props, uuid: Text)
    ensures var d := DecideExisting(req, n, p, uuid);
            var managed := ManagedBy in p && p[ManagedBy] == ManagedByNasty;
            var marked := managed && IdentityVersion in p && p[IdentityVersion] == Version2;
            var sameProtocol := Get(p, Protocol) == req.protocol;
            var sameClaim := && req.pvcName != Empty && PVCName in p && p[PVCName] == req.pvcName
                             && req.pvcNamespace != Empty && PVCNamespace in p && p[PVCNamespace] == req.pvcNamespace;
            && (marked ==> (d.Identity? <==> Get(p, RequestName) == req.name && sameProtocol))
            && (managed && !marked ==>
                  (d.Identity? <==>
                     req.adoptExisting || (sameProtocol && (Get(p, CSIVolumeName) == req.name || sameClaim))))
            && (!managed ==> (d.Identity? <==> req.adoptExisting))
            && (d.Refused? ==> d.code == if marked then FailedPrecondition else AlreadyExists)
            && (d.Identity? ==>
                  && IdentityVersion in d.properties && d.properties[IdentityVersion] == Version2
                  && Get(d.properties, RequestName) == req.name && Get(d.properties, CSIVolumeName) == n
                  && Get(d.properties, Protocol) == req.protocol
                  && Get(d.properties, VolumeUUID) == if Get(p, VolumeUUID) != Empty then p[VolumeUUID] else uuid)
  {
  }

  /** A request that is not the recorded owner gets a subvolume only if its class asks for
      adoption or the subvolume has a legacy record that names this request or its claim. */
  lemma DecideExistingIsGuarded(req: Request, n: Name, p: Props, uuid: Text)
    requires DecideExisting(req, n, p, uuid).Identity?
    requires Get(p, RequestName) != req.name
    ensures Get(p, IdentityVersion) == Version2 ==> Get(p, ManagedBy) != ManagedByNasty
    ensures req.adoptExisting || (Get(p, ManagedBy) == ManagedByNasty && LegacyPVCIdentityMatches(req, p))
  {
  }

  /** When a destination counts as a copy of its source, field by field. If the source is there: they
      share a UUID, or a request name and a volume name; or neither has anything of a v2 identity
      against it and the destination agrees on all that a legacy source records. If only a snapshot is
      left: the destination is still complete for the name of the deleted parent. */
  lemma CarriesCopyIff(req: Request, p: Props, facts: CloneFacts)
    requires req.source != NoSource
    ensures var q := facts.source;
            var sharesUUID := VolumeUUID in q && q[VolumeUUID] != Empty && Get(p, VolumeUUID) == q[VolumeUUID];
            var sharesNames := && RequestName in q && q[RequestName] != Empty && Get(p, RequestName) == q[RequestName]
                               && CSIVolumeName in q && q[CSIVolumeName] != Empty
                               && Get(p, CSIVolumeName) == q[CSIVolumeName];
            var unmarked := && Get(q, IdentityVersion) != Version2 && Get(p, IdentityVersion) == Empty
                            && Get(p, RequestName) == Empty && Get(p, VolumeUUID) == Empty;
            var named := Get(q, CSIVolumeName) != Empty && Get(q, Protocol) != Empty;
            var agrees := && Get(p, ManagedBy) == Get(q, ManagedBy) == ManagedByNasty
                          && Get(p, CSIVolumeName) == Get(q, CSIVolumeName) && Get(p, Protocol) == Get(q, Protocol)
                          && Get(q, CreatedAt) in {Empty, Get(p, CreatedAt)}
                          && Get(q, CapacityBytes) in {Empty, Get(p, CapacityBytes)}
                          && Get(q, PVCName) in {Empty, Get(p, PVCName)}
                          && Get(q, PVCNamespace) in {Empty, Get(p, PVCNamespace)}
                          && Get(q, StorageClass) in {Empty, Get(p, StorageClass)};
            CarriesCopy(req, p, facts) <==>
              if facts.sourceExists then sharesUUID || sharesNames || (unmarked && named && agrees)
              else HasCompleteV2Identity(p, req.source.volume) && Get(p, Protocol) == req.protocol
  {
    if facts.sourceExists {
      var q := facts.source;
      assert forall k :: k in COMPARED_KEYS <==>
        k in [ManagedBy, CSIVolumeName, Protocol, CreatedAt, CapacityBytes, PVCName, PVCNamespace, StorageClass];
      assert ManagedBy in COMPARED_KEYS && CSIVolumeName in COMPARED_KEYS && Protocol in COMPARED_KEYS;
      assert CreatedAt in COMPARED_KEYS && CapacityBytes in COMPARED_KEYS && PVCName in COMPARED_KEYS;
      assert PVCNamespace in COMPARED_KEYS && StorageClass in COMPARED_KEYS;
    }
  }

  /** An exact copy is recognised, unless its v2 identity is incomplete in a way that leaves nothing to
      compare. */
  lemma CopyIsRecognisedIff(p: Props)
    ensures CloneCarriesSourceIdentity(p, p) <==>
              || Get(p, VolumeUUID) != Empty
              || (Get(p, CSIVolumeName) != Empty && Get(p, RequestName) != Empty)
              || (&& Get(p, IdentityVersion) == Empty && Get(p, RequestName) == Empty
                  && Get(p, ManagedBy) == ManagedByNasty && Get(p, CSIVolumeName) != Empty && Get(p, Protocol) != Empty)
  {
  }

  /** What a clone attempt may do with its destination: it goes on if it made it, if the destination
      records its request, if it is a copy, or, under the legacy name, if the record names its request
      or its whole claim; and it takes the identity over unless it made the destination or copied it. */
  lemma ClassifyCloneIff(req: Request, n: Name, p: Props, facts: CloneFacts, uuid: Text)
    requires req.source != NoSource
    ensures var d := ClassifyClone(req, n, p, facts, uuid);
            var made := facts.created || !facts.existed;
            var ours := ManagedBy in p && p[ManagedBy] == ManagedByNasty && Get(p, Protocol) == req.protocol;
            var own := ours && Get(p, IdentityVersion) == Version2 && Get(p, RequestName) == req.name;
            var copied := CarriesCopy(req, p, facts);
            var proven := ours &&
                          (Get(p, CSIVolumeName) == req.name ||
                           (&& req.pvcName != Empty && Get(p, PVCName) == req.pvcName
                            && req.pvcNamespace != Empty && Get(p, PVCNamespace) == req.pvcNamespace));
            && (d.Identity? <==> made || own || (if facts.legacy then proven else copied))
            && (d.Refused? ==> d.code == AlreadyExists)
            && (d.Identity? ==>
                  d.properties == IdentityProperties(if made || (!own && copied) then map[] else p,
                                                     req.name, n, req.protocol, uuid))
  {
    hide CarriesCopy;
  }

  /** A clone attempt replaces the UUID of a destination that is owned under its own name exactly
      when it did not create it, another request or protocol owns it, and it shares an identity
      with the source; and under its legacy name only if the record there names this request or its
      claim. */
  lemma ClassifyReplacesOwnersIff(req: Request, n: Name, p: Props, facts: CloneFacts, uuid: Text)
    requires HasCompleteV2Identity(p, n) && uuid != Get(p, VolumeUUID)
    requires req.source != NoSource && facts.existed && !facts.created
    ensures var d := ClassifyClone(req, n, p, facts, uuid);
            (d.Identity? && d.properties[VolumeUUID] != Get(p, VolumeUUID))
            <==> && (Get(p, RequestName) != req.name || Get(p, Protocol) != req.protocol)
                 && CarriesCopy(req, p, facts)
                 && (facts.legacy ==> ProvesLegacyOwnership(req, p))
  {
  }

  /** An interrupted clone that still holds the identity of its source, which another request
      owns, is given the new identity by the clone path, or refused if it was found under its legacy
      name without proof, and refused by every other path. */
  lemma CopiedIdentityIsReplaced(req: Request, n: Name, p: Props, facts: CloneFacts, uuid: Text)
    requires req.source != NoSource && facts.existed
    requires HasCompleteV2Identity(p, req.source.volume) && Get(p, RequestName) != req.name
    requires if facts.sourceExists then Get(facts.source, VolumeUUID) == Get(p, VolumeUUID)
               else Get(p, Protocol) == req.protocol
    ensures ClassifyClone(req, n, p, facts, uuid) ==
            if facts.legacy && !facts.created && !ProvesLegacyOwnership(req, p) then Refused(AlreadyExists)
            else Identity(IdentityProperties(map[], req.name, n, req.protocol, uuid))
    ensures DecideExisting(req, n, p, uuid).Refused?
  {
  }
}
