/** Listing in pages. A volume page ends with the ID of its last entry as the token for the next; a
    snapshot page ends with the offset of the next entry in decimal. */
module Pagination {
  import opened Wrappers
  type Token = string

  /** `Aborted` answers a token that is not one. */
  datatype Page<T> = Page(entries: seq<T>, next: Token) | Aborted

  // ----- Offset tokens -----

  const MAX_INT: nat := 0x7FFF_FFFF_FFFF_FFFF

  function DigitChar(d: nat): char
    requires d < 10
  {
    '0' + d as char
  }

  function Itoa(n: nat): (s: string)
    ensures |s| > 0 && forall i :: 0 <= i < |s| ==> '0' <= s[i] <= '9'
    ensures s[0] == '0' ==> n == 0
  {
    if n < 10 then [DigitChar(n)] else Itoa(n / 10) + [DigitChar(n % 10)]
  }

  function Digits(s: string): Option<nat> {
    if s == [] then Some(0)
    else if !('0' <= s[|s| - 1] <= '9') then None
    else match Digits(s[..|s| - 1])
         case None => None
         case Some(n) => Some(n * 10 + (s[|s| - 1] as int - '0' as int))
  }

  /** A signed decimal that fits the integer width, as the standard library reads it. */
  function Atoi(s: string): Option<int> {
    var negative := s != [] && s[0] == '-';
    var body := if s != [] && (s[0] == '-' || s[0] == '+') then s[1..] else s;
    if body == [] then None
    else match Digits(body)
         case None => None
         case Some(n) =>
           if negative then (if n <= MAX_INT + 1 then Some(0 - n as int) else None)
           else if n <= MAX_INT then Some(n) else None
  }

  function EncodeSnapshotToken(offset: nat): Token { Itoa(offset) }

  function ParseSnapshotToken(token: Token): Option<nat> {
    match Atoi(token)
    case None => None
    case Some(n) => if n < 0 || token != Itoa(n) then None else Some(n)
  }

  lemma {:induction false} DigitsOfItoa(n: nat)
    ensures Digits(Itoa(n)) == Some(n)
  {
    if n < 10 {
      assert Itoa(n)[..0] == [];
    } else {
      DigitsOfItoa(n / 10);
      assert Itoa(n)[..|Itoa(n)| - 1] == Itoa(n / 10);
    }
  }

  /** A token parses to an offset exactly when it is the canonical decimal of that offset. */
  lemma ParseMeaning(token: Token, n: nat)
    ensures ParseSnapshotToken(token) == Some(n) <==> token == EncodeSnapshotToken(n) && n <= MAX_INT
  {
    DigitsOfItoa(n);
    if Atoi(token).Some? && Atoi(token).value >= 0 { DigitsOfItoa(Atoi(token).value); }
  }

  // ----- Volumes -----

  /** The first position of an ID, if it is there. */
  function Find(ids: seq<string>, id: string): (r: Option<nat>)
    ensures r.Some? ==> r.value < |ids| && ids[r.value] == id && id !in ids[..r.value]
    ensures r.None? <==> id !in ids
  {
    if ids == [] then None
    else if ids[0] == id then Some(0)
    else
      match Find(ids[1..], id)
      case None => None
      case Some(i) =>
        assert ids[..i + 1] == [ids[0]] + ids[1..][..i];
        Some(i + 1)
  }

  /** IDs are told apart and none is the empty token. */
  ghost predicate Distinct(ids: seq<string>) {
    && (forall i, j :: 0 <= i < j < |ids| ==> ids[i] != ids[j])
    && forall i :: 0 <= i < |ids| ==> ids[i] != ""
  }

  function VolumePage(ids: seq<string>, token: Token, maxEntries: int): Page<string> {
    var found := Find(ids, token);
    if token != "" && found.None? then Aborted
    else
      var start := if token == "" then 0 else found.value + 1;
      if maxEntries > 0 && start + maxEntries < |ids|
      then Page(ids[start..start + maxEntries], ids[start + maxEntries - 1])
      else Page(ids[start..], "")
  }

  /** The page of `ListVolumes`, found by a scan for the token that stops at its first match. */
  method ListVolumes(ids: seq<string>, token: Token, maxEntries: int) returns (page: Page<string>)
    ensures page == VolumePage(ids, token, maxEntries)
  {
    hide Find;
    var start := 0;
    if token != "" {
      var found, i := false, 0;
      while i < |ids| && !found
        invariant 0 <= i <= |ids|
        invariant found ==> 0 < i == start && ids[i - 1] == token
        invariant !found ==> start == 0
        invariant forall j :: 0 <= j < (if found then i - 1 else i) ==> ids[j] != token
        decreases |ids| - i
      {
        if ids[i] == token { start, found := i + 1, true; }
        i := i + 1;
      }
      if !found {
        assert token !in ids;
        return Aborted;
      }
      FindIsFirst(ids, token, start - 1);
    }
    var end, next := |ids|, "";
    if maxEntries > 0 && start + maxEntries < |ids| {
      end := start + maxEntries;
      next := ids[end - 1];
    }
    return Page(ids[start..end], next);
  }

  lemma {:induction false} FindIsFirst(ids: seq<string>, id: string, i: nat)
    requires i < |ids| && ids[i] == id && forall j :: 0 <= j < i ==> ids[j] != id
    ensures Find(ids, id) == Some(i)
  {
    if i > 0 { FindIsFirst(ids[1..], id, i - 1); }
  }

  /** What a volume page is: it is refused exactly for a token that is no volume's ID, and else starts
      after the first volume of that ID, or at the beginning, and has as many as were asked for, or all
      that are left. A further page is announced exactly if some are left, by the last ID of this one. */
  lemma VolumePageIff(ids: seq<string>, token: Token, maxEntries: int) returns (start: nat)
    ensures var page := VolumePage(ids, token, maxEntries);
            && (page.Aborted? <==> token != "" && token !in ids)
            && start <= |ids|
            && (page.Page? ==>
                  && (if token == "" then start == 0
                      else start > 0 && ids[start - 1] == token && token !in ids[..start - 1])
                  && var left := |ids| - start;
                     var size := if 0 < maxEntries < left then maxEntries else left;
                     && page.entries == ids[start..start + size]
                     && page.next == (if size < left then ids[start + size - 1] else ""))
  {
    start := if token == "" || token !in ids then 0 else Find(ids, token).value + 1;
  }

  /** Where a token resumes. */
  function StartOf(ids: seq<string>, token: Token): nat {
    if token == "" then 0 else match Find(ids, token) case None => 0 case Some(i) => i + 1
  }

  lemma FindIsPosition(ids: seq<string>, i: nat)
    requires Distinct(ids) && i < |ids|
    ensures Find(ids, ids[i]) == Some(i)
  {
    FindIsFirst(ids, ids[i], i);
  }

  /** Following the tokens from page to page, with whatever page sizes. */
  ghost function FollowVolumes(ids: seq<string>, token: Token, sizes: nat -> int, request: nat): seq<string>
    requires Distinct(ids) && (token == "" || token in ids)
    decreases |ids| - StartOf(ids, token)
  {
    var page := VolumePage(ids, token, sizes(request));
    if page.next == "" then page.entries
    else
      FindIsPosition(ids, StartOf(ids, token) + sizes(request) - 1);
      page.entries + FollowVolumes(ids, page.next, sizes, request + 1)
  }

  lemma VolumePageAt(ids: seq<string>, token: Token, size: int)
    requires Distinct(ids) && (token == "" || token in ids)
    ensures var page, start := VolumePage(ids, token, size), StartOf(ids, token);
            var end := if size <= 0 || start + size >= |ids| then |ids| else start + size;
            && page.Page? && start <= end <= |ids| && page.entries == ids[start..end]
            && (page.next == "" <==> end == |ids|)
            && (page.next != "" ==> page.next in ids && StartOf(ids, page.next) == end)
  {
    var start := StartOf(ids, token);
    var end := if size <= 0 || start + size >= |ids| then |ids| else start + size;
    if end < |ids| { FindIsPosition(ids, end - 1); }
  }

  lemma {:induction false} FollowVolumesFrom(ids: seq<string>, token: Token, sizes: nat -> int, request: nat)
    requires Distinct(ids) && (token == "" || token in ids)
    ensures FollowVolumes(ids, token, sizes, request) == ids[StartOf(ids, token)..]
    decreases |ids| - StartOf(ids, token)
  {
    hide VolumePage, StartOf, Distinct;
    VolumePageAt(ids, token, sizes(request));
    var page, start := VolumePage(ids, token, sizes(request)), StartOf(ids, token);
    if page.next != "" {
      var end := start + sizes(request);
      FollowVolumesFrom(ids, page.next, sizes, request + 1);
      assert ids[start..] == ids[start..end] + ids[end..];
    } else {
      assert ids[start..|ids|] == ids[start..];
    }
  }

  /** With an unchanged list, following the tokens from the start ends and gives the whole list:
      every volume once, in order. */
  lemma VolumePagesAreComplete(ids: seq<string>, sizes: nat -> int)
    requires Distinct(ids)
    ensures FollowVolumes(ids, "", sizes, 0) == ids
  {
    FollowVolumesFrom(ids, "", sizes, 0);
    assert ids[0..] == ids;
  }

  // ----- Snapshots -----

  /** The entries of the names that can be encoded. */
  function Encoded<E>(names: seq<string>, entry: string -> Option<E>): seq<E> {
    if names == [] then []
    else Encoded(names[..|names| - 1], entry) + (match entry(names[|names| - 1]) case None => [] case Some(e) => [e])
  }

  lemma {:induction false} EncodedJoins<E>(a: seq<string>, b: seq<string>, entry: string -> Option<E>)
    ensures Encoded(a + b, entry) == Encoded(a, entry) + Encoded(b, entry)
  {
    if b == [] {
      assert a + b == a;
    } else {
      EncodedJoins(a, b[..|b| - 1], entry);
      assert (a + b)[..|a + b| - 1] == a + b[..|b| - 1];
    }
  }

  lemma EncodedExtends<E>(names: seq<string>, start: nat, i: nat, entry: string -> Option<E>)
    requires start <= i < |names|
    ensures Encoded(names[start..i + 1], entry) ==
            Encoded(names[start..i], entry) + match entry(names[i]) case None => [] case Some(e) => [e]
  {
    assert names[start..i + 1][..i - start] == names[start..i];
  }

  lemma EncodedNothing<E>(names: seq<string>, start: nat, entry: string -> Option<E>)
    requires start <= |names|
    ensures Encoded(names[start..start], entry) == []
  {
  }

  function SourcePage<E>(names: seq<string>, token: Token, maxEntries: int, entry: string -> Option<E>): Page<E> {
    var start := if token == "" then Some(0) else ParseSnapshotToken(token);
    if start.None? then Aborted
    else if token != "" && start.value >= |names| then Page([], "")
    else
      var size := if maxEntries <= 0 then |names| else maxEntries;
      var end := if start.value + size > |names| then |names| else start.value + size;
      Page(Encoded(names[start.value..end], entry), if end < |names| then EncodeSnapshotToken(end) else "")
  }

  /** The snapshots of one volume, whose names have been sorted. */
  method ListSnapshotsBySourceVolume<E>(names: seq<string>, token: Token, maxEntries: int, entry: string -> Option<E>)
    returns (page: Page<E>)
    ensures page == SourcePage(names, token, maxEntries, entry)
  {
    hide ParseSnapshotToken, EncodeSnapshotToken, Encoded;
    var size := if maxEntries <= 0 then |names| else maxEntries;
    var start := 0;
    if token != "" {
      var parsed := ParseSnapshotToken(token);
      if parsed.None? { return Aborted; }
      start := parsed.value;
      if start >= |names| { return Page([], ""); }
    }
    var end := start + size;
    if end > |names| { end := |names|; }
    var entries: seq<E> := [];
    var i := start;
    EncodedNothing(names, start, entry);
    while i < end
      invariant start <= i <= end
      invariant entries == Encoded(names[start..i], entry)
    {
      EncodedExtends(names, start, i, entry);
      match entry(names[i]) {
        case None =>
        case Some(e) => entries := entries + [e];
      }
      i := i + 1;
    }
    return Page(entries, if end < |names| then EncodeSnapshotToken(end) else "");
  }

  /** All snapshots: the entries have been collected and sorted. */
  function AllPage<E>(all: seq<E>, token: Token, maxEntries: int): Page<E> {
    var start := if token == "" then Some(0) else ParseSnapshotToken(token);
    if start.None? then Aborted
    else if start.value >= |all| then Page([], "")
    else
      var end := if maxEntries > 0 && start.value + maxEntries < |all| then start.value + maxEntries else |all|;
      Page(all[start.value..end], if end < |all| then EncodeSnapshotToken(end) else "")
  }

  /** A token that a listing of `n` items may hand out. */
  ghost predicate IsOffset(token: Token, n: nat) {
    token == "" || (ParseSnapshotToken(token).Some? && ParseSnapshotToken(token).value < n)
  }

  ghost function OffsetOf(token: Token): nat {
    if token == "" then 0 else match ParseSnapshotToken(token) case None => 0 case Some(n) => n
  }

  ghost function FollowSource<E>(names: seq<string>, token: Token, sizes: nat -> int, entry: string -> Option<E>,
                                 request: nat): seq<E>
    requires |names| <= MAX_INT && IsOffset(token, |names|)
    decreases |names| - OffsetOf(token)
  {
    var page := SourcePage(names, token, sizes(request), entry);
    if page.next == "" then page.entries
    else
      ParseMeaning(page.next, OffsetOf(token) + sizes(request));
      page.entries + FollowSource(names, page.next, sizes, entry, request + 1)
  }

  lemma SourcePageAt<E>(names: seq<string>, token: Token, size: int, entry: string -> Option<E>)
    requires |names| <= MAX_INT && IsOffset(token, |names|)
    ensures var page, start := SourcePage(names, token, size, entry), OffsetOf(token);
            var end := if size <= 0 || start + size > |names| then |names| else start + size;
            && page.Page? && start <= end <= |names| && page.entries == Encoded(names[start..end], entry)
            && (page.next == "" <==> end == |names|)
            && (page.next != "" ==> page.next == EncodeSnapshotToken(end) && ParseSnapshotToken(page.next) == Some(end))
  {
    var start := OffsetOf(token);
    var end := if size <= 0 || start + size > |names| then |names| else start + size;
    ParseMeaning(EncodeSnapshotToken(end), end);
    hide Encoded, ParseSnapshotToken, Itoa;
  }

  lemma {:induction false} FollowSourceFrom<E>(names: seq<string>, token: Token, sizes: nat -> int,
                                               entry: string -> Option<E>, request: nat)
    requires |names| <= MAX_INT && IsOffset(token, |names|)
    ensures FollowSource(names, token, sizes, entry, request) == Encoded(names[OffsetOf(token)..], entry)
    decreases |names| - OffsetOf(token)
  {
    hide Encoded, ParseSnapshotToken, SourcePage;
    SourcePageAt(names, token, sizes(request), entry);
    var page, start := SourcePage(names, token, sizes(request), entry), OffsetOf(token);
    if page.next != "" {
      var end := start + sizes(request);
      FollowSourceFrom(names, page.next, sizes, entry, request + 1);
      assert names[start..] == names[start..end] + names[end..];
      EncodedJoins(names[start..end], names[end..], entry);
    } else {
      assert names[start..|names|] == names[start..];
    }
  }

  ghost function FollowAll<E>(all: seq<E>, token: Token, sizes: nat -> int, request: nat): seq<E>
    requires |all| <= MAX_INT && IsOffset(token, |all|)
    decreases |all| - OffsetOf(token)
  {
    var page := AllPage(all, token, sizes(request));
    if page.next == "" then page.entries
    else
      ParseMeaning(page.next, OffsetOf(token) + sizes(request));
      page.entries + FollowAll(all, page.next, sizes, request + 1)
  }

  lemma AllPageAt<E>(all: seq<E>, token: Token, size: int)
    requires |all| <= MAX_INT && IsOffset(token, |all|)
    ensures var page, start := AllPage(all, token, size), OffsetOf(token);
            var end := if size <= 0 || start + size >= |all| then |all| else start + size;
            && page.Page? && start <= end <= |all| && page.entries == all[start..end]
            && (page.next == "" <==> end == |all|)
            && (page.next != "" ==> page.next == EncodeSnapshotToken(end) && ParseSnapshotToken(page.next) == Some(end))
  {
    var start := OffsetOf(token);
    var end := if size <= 0 || start + size >= |all| then |all| else start + size;
    ParseMeaning(EncodeSnapshotToken(end), end);
    hide ParseSnapshotToken, Itoa;
  }

  lemma {:induction false} FollowAllFrom<E>(all: seq<E>, token: Token, sizes: nat -> int, request: nat)
    requires |all| <= MAX_INT && IsOffset(token, |all|)
    ensures FollowAll(all, token, sizes, request) == all[OffsetOf(token)..]
    decreases |all| - OffsetOf(token)
  {
    hide ParseSnapshotToken, AllPage;
    AllPageAt(all, token, sizes(request));
    var page, start := AllPage(all, token, sizes(request)), OffsetOf(token);
    if page.next != "" {
      var end := start + sizes(request);
      FollowAllFrom(all, page.next, sizes, request + 1);
      assert all[start..] == all[start..end] + all[end..];
    } else {
      assert all[start..|all|] == all[start..];
    }
  }

  /** Both snapshot listings end and give every entry once, in order, whatever the page sizes. */
  lemma SnapshotPagesAreComplete<E>(names: seq<string>, all: seq<E>, sizes: nat -> int, entry: string -> Option<E>)
    requires |names| <= MAX_INT && |all| <= MAX_INT
    ensures FollowSource(names, "", sizes, entry, 0) == Encoded(names, entry)
    ensures FollowAll(all, "", sizes, 0) == all
  {
    FollowSourceFrom(names, "", sizes, entry, 0);
    FollowAllFrom(all, "", sizes, 0);
    assert names[0..] == names && all[0..] == all;
  }
}
