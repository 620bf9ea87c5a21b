/** Identifiers that carry structure: snapshot IDs `protocol:volume@snapshot` and subvolume IDs
    `filesystem/name`. */
module SnapshotIds {
  import opened Wrappers
  datatype Metadata = Metadata(protocol: string, sourceVolume: string, snapshotName: string)

  /** The first position of a character, if there is one. */
  function IndexOf(s: string, c: char): (r: Option<nat>)
    ensures r.Some? ==> r.value < |s| && s[r.value] == c && c !in s[..r.value]
    ensures r.None? <==> c !in s
  {
    if s == [] then None
    else if s[0] == c then Some(0)
    else match IndexOf(s[1..], c)
         case None => None
         case Some(i) => assert s[..i + 1] == [s[0]] + s[1..][..i]; Some(i + 1)
  }

  /** The last position of a character, if there is one. */
  function LastIndexOf(s: string, c: char): (r: Option<nat>)
    ensures r.Some? ==> r.value < |s| && s[r.value] == c && c !in s[r.value + 1..]
    ensures r.None? <==> c !in s
  {
    if s == [] then None
    else if s[|s| - 1] == c then Some(|s| - 1)
    else match LastIndexOf(s[..|s| - 1], c)
         case None => None
         case Some(i) => assert s[i + 1..] == s[..|s| - 1][i + 1..] + [s[|s| - 1]]; Some(i)
  }

  const PROTOCOLS := {"nfs", "nvmeof", "iscsi", "smb"}

  function EncodeSnapshotID(m: Metadata): Option<string> {
    if m.protocol == "" || m.sourceVolume == "" || m.snapshotName == "" then None
    else Some(m.protocol + ":" + m.sourceVolume + "@" + m.snapshotName)
  }

  function DecodeSnapshotID(id: string): Option<Metadata> {
    match IndexOf(id, ':')
    case None => None
    case Some(colon) =>
      var protocol, remainder := id[..colon], id[colon + 1..];
      if protocol !in PROTOCOLS then None
      else match LastIndexOf(remainder, '@')
           case None => None
           case Some(at) =>
             var volume, name := remainder[..at], remainder[at + 1..];
             if volume == "" || name == "" then None else Some(Metadata(protocol, volume, name))
  }

  lemma FirstIsUnique(s: string, c: char, i: nat)
    requires i < |s| && s[i] == c && c !in s[..i]
    ensures IndexOf(s, c) == Some(i)
  {
    var j := IndexOf(s, c).value;
    assert forall x :: 0 <= x < i ==> s[x] == s[..i][x];
    assert forall x :: 0 <= x < j ==> s[x] == s[..j][x];
  }

  lemma LastIsUnique(s: string, c: char, i: nat)
    requires i < |s| && s[i] == c && c !in s[i + 1..]
    ensures LastIndexOf(s, c) == Some(i)
  {
    var j := LastIndexOf(s, c).value;
    assert forall x :: i < x < |s| ==> s[x] == s[i + 1..][x - i - 1];
    assert forall x :: j < x < |s| ==> s[x] == s[j + 1..][x - j - 1];
  }

  lemma ProtocolsHaveNoColon(p: string)
    requires p in PROTOCOLS
    ensures p != "" && ':' !in p
  {
  }

  /** Decoding undoes encoding: for the known protocols, any volume ID, whatever colons and at
      signs it has, and any name without an at sign. */
  lemma DecodeUndoesEncode(m: Metadata)
    requires m.protocol in PROTOCOLS && m.sourceVolume != "" && m.snapshotName != "" && '@' !in m.snapshotName
    ensures EncodeSnapshotID(m).Some? && DecodeSnapshotID(EncodeSnapshotID(m).value) == Some(m)
  {
    hide IndexOf, LastIndexOf;
    ProtocolsHaveNoColon(m.protocol);
    var id := EncodeSnapshotID(m).value;
    var rest := m.sourceVolume + "@" + m.snapshotName;
    Joins(m.protocol, m.sourceVolume, m.snapshotName);
    assert id[..|m.protocol|] == m.protocol && id[|m.protocol| + 1..] == rest;
    FirstIsUnique(id, ':', |m.protocol|);
    assert rest[|m.sourceVolume| + 1..] == m.snapshotName && rest[..|m.sourceVolume|] == m.sourceVolume;
    LastIsUnique(rest, '@', |m.sourceVolume|);
  }

  /** Encoding undoes decoding: for every string that decodes. */
  lemma EncodeUndoesDecode(id: string)
    requires DecodeSnapshotID(id).Some?
    ensures EncodeSnapshotID(DecodeSnapshotID(id).value) == Some(id)
  {
    var colon := IndexOf(id, ':').value;
    var remainder := id[colon + 1..];
    var at := LastIndexOf(remainder, '@').value;
    ProtocolsHaveNoColon(id[..colon]);
    SplitAt(id, colon);
    SplitAt(remainder, at);
    Joins(id[..colon], remainder[..at], remainder[at + 1..]);
  }

  /** What an ID denotes: the parts of which it is made, for one of the four protocols, if both names are
      there and the snapshot's has no separator. */
  lemma DecodeSnapshotIDIff(id: string, m: Metadata)
    ensures DecodeSnapshotID(id) == Some(m) <==>
              && m.protocol in {"nfs", "smb", "iscsi", "nvmeof"} && m.sourceVolume != "" && m.snapshotName != ""
              && '@' !in m.snapshotName
              && id == m.protocol + ":" + m.sourceVolume + "@" + m.snapshotName
  {
    hide DecodeSnapshotID, IndexOf, LastIndexOf;
    if DecodeSnapshotID(id) == Some(m) {
      DecodedParts(id);
      EncodeUndoesDecode(id);
    } else if m.protocol in PROTOCOLS && m.sourceVolume != "" && m.snapshotName != "" && '@' !in m.snapshotName {
      DecodeUndoesEncode(m);
    }
  }

  /** Of the snapshots of a known protocol without a separator in the name, those are refused an ID that
      no ID denotes. */
  lemma EncodeRefusesIff(m: Metadata)
    requires m.protocol in PROTOCOLS && '@' !in m.snapshotName
    ensures EncodeSnapshotID(m).Some? <==> exists id :: DecodeSnapshotID(id) == Some(m)
  {
    hide DecodeSnapshotID, IndexOf, LastIndexOf;
    forall id ensures DecodeSnapshotID(id) == Some(m) ==> m.sourceVolume != "" && m.snapshotName != "" {
      DecodeSnapshotIDIff(id, m);
    }
    if EncodeSnapshotID(m).Some? { DecodeUndoesEncode(m); }
  }

  lemma SplitAt(s: string, i: nat)
    requires i < |s|
    ensures s == s[..i] + [s[i]] + s[i + 1..]
  {
  }

  lemma Joins(protocol: string, volume: string, name: string)
    ensures protocol + ":" + (volume + "@" + name) == protocol + ":" + volume + "@" + name
  {
  }

  /** A name with an at sign is exactly what the round trip cannot bring back. */
  lemma AtSignsDoNotRoundTrip(m: Metadata)
    requires m.protocol in PROTOCOLS && m.sourceVolume != "" && m.snapshotName != ""
    ensures DecodeSnapshotID(EncodeSnapshotID(m).value) == Some(m) <==> '@' !in m.snapshotName
  {
    if '@' !in m.snapshotName {
      DecodeUndoesEncode(m);
    } else {
      var d := DecodeSnapshotID(EncodeSnapshotID(m).value);
      if d.Some? { DecodedParts(EncodeSnapshotID(m).value); }
    }
  }

  lemma DecodedParts(id: string)
    requires DecodeSnapshotID(id).Some?
    ensures var m := DecodeSnapshotID(id).value;
            m.protocol in PROTOCOLS && m.sourceVolume != "" && m.snapshotName != "" && '@' !in m.snapshotName
  {
  }

  // ----- Subvolume IDs -----

  function SplitSubvolumeID(id: string): Option<(string, string)> {
    match IndexOf(id, '/')
    case None => None
    case Some(i) => if i == |id| - 1 then None else Some((id[..i], id[i + 1..]))
  }

  /** A filesystem without a slash and a non-empty name are what splitting brings back, and nothing
      else splits. */
  lemma SplitUndoesJoin(id: string, filesystem: string, name: string)
    ensures SplitSubvolumeID(id) == Some((filesystem, name)) <==>
              id == filesystem + "/" + name && '/' !in filesystem && name != ""
  {
    if id == filesystem + "/" + name && '/' !in filesystem {
      assert id[..|filesystem|] == filesystem && id[|filesystem| + 1..] == name;
      FirstIsUnique(id, '/', |filesystem|);
    }
    if SplitSubvolumeID(id).Some? {
      var i := IndexOf(id, '/').value;
      assert id == id[..i] + "/" + id[i + 1..];
    }
  }
}
