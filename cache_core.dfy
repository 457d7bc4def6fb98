/** The parts of the session cache that both revisions of `SessionsCache`
    share: the on-disk layout, the in-memory index, the events the cache emits,
    and the pure definitions of the index updates, the start-up rebuild and the
    retention sweep, with what is proved about them.

    Disk: the sessions root is a map from directory name (the session id) to
    the files of its `images/` and `metadata/` sub-directories.
    Index: `self.sessions`, a dict from session id to a dict from track id to
    DetectionMetadata. Python dicts keep insertion order, and the cache always
    stores a record under its own `detection` field, so one session's dict is
    the sequence of its records in insertion order, at most one per track. */
module CacheCore {
  import opened Records
  import Order

  /** Content of `<track>.json`: a record, or text that does not parse as one. */
  datatype MetadataFile = Json(record: DetectionMetadata) | Unreadable

  /** `<root>/<session>/images/` and `<root>/<session>/metadata/`. */
  datatype SessionDir = SessionDir(images: map<string, Bytes>, metadata: map<string, MetadataFile>)

  const EmptyDir: SessionDir := SessionDir(map[], map[])

  datatype SubDir = Images | Metadata

  /** One session's dict: its records in insertion order. */
  type Index = seq<DetectionMetadata>

  /** What the cache publishes on the protocol channel, under the identifiers
      "session.new", "session.delete", "detection" and "session.details". */
  datatype CacheEvent =
    | SessionNew(session: string)
    | SessionDelete(session: string)
    | DetectionMsg(metadata: DetectionMetadata, image: Bytes)
    | SessionDetailsMsg(session: string, detections: nat)

  /** Everything a cache operation reads or changes. */
  datatype Snapshot = Snapshot(
    sessions: map<string, Index>,
    current: Option<string>,
    disk: map<string, SessionDir>,
    published: seq<CacheEvent>)

  ghost predicate UniqueTracks(ix: Index)
  {
    forall i, j :: 0 <= i < j < |ix| ==> ix[i].detection != ix[j].detection
  }

  /** Established by `init()` and kept by every later operation: every session
      directory is indexed. */
  ghost predicate Indexed(s: Snapshot)
  {
    s.disk.Keys <= s.sessions.Keys
  }

  /** Kept by every operation: only sessions with a directory are indexed, and
      a session's dict has one entry per track. */
  ghost predicate Coherent(s: Snapshot)
  {
    && s.sessions.Keys <= s.disk.Keys
    && forall k :: k in s.sessions ==> UniqueTracks(s.sessions[k])
  }

  // ---------------------------------------------------------------------------
  // One session's dict
  // ---------------------------------------------------------------------------

  /** Where `track` sits in the dict, if anywhere. */
  function Position(ix: Index, track: int): (r: Option<nat>)
    ensures r.Some? ==> r.value < |ix| && ix[r.value].detection == track
    ensures r.Some? ==> forall j :: 0 <= j < r.value ==> ix[j].detection != track
    ensures r.None? ==> forall j :: 0 <= j < |ix| ==> ix[j].detection != track
    decreases |ix|
  {
    if ix == [] then None
    else if ix[0].detection == track then Some(0)
    else match Position(ix[1..], track)
      case Some(k) => Some(k + 1)
      case None => None
  }

  /** `sess.get(track)`. */
  function Lookup(ix: Index, track: int): (r: Option<DetectionMetadata>)
    ensures r.Some? ==> r.value in ix && r.value.detection == track
    ensures r.None? <==> forall j :: 0 <= j < |ix| ==> ix[j].detection != track
  {
    match Position(ix, track)
    case Some(k) => Some(ix[k])
    case None => None
  }

  /** `sess[m.detection] = m`: a new track goes at the end, a known one keeps its place. */
  function Put(ix: Index, m: DetectionMetadata): (r: Index)
    ensures Lookup(ix, m.detection).None? ==> r == ix + [m]
    ensures Lookup(ix, m.detection).Some? ==>
      exists k :: 0 <= k < |ix| && ix[k].detection == m.detection && r == ix[k := m]
    ensures Lookup(r, m.detection) == Some(m)
    ensures forall t :: t != m.detection ==> Lookup(r, t) == Lookup(ix, t)
    ensures UniqueTracks(ix) ==> UniqueTracks(r)
  {
    match Position(ix, m.detection)
    case Some(k) =>
      var r := ix[k := m];
      assert Position(r, m.detection) == Some(k) by {
        PositionIsFirst(r, m.detection, k);
      }
      forall t | t != m.detection
        ensures Lookup(r, t) == Lookup(ix, t)
      {
        PositionAgrees(ix, r, t);
      }
      r
    case None =>
      var r := ix + [m];
      assert Position(r, m.detection) == Some(|ix|) by {
        PositionIsFirst(r, m.detection, |ix|);
      }
      forall t | t != m.detection
        ensures Lookup(r, t) == Lookup(ix, t)
      {
        PositionAgrees(ix, r, t);
      }
      r
  }

  lemma PositionIsFirst(ix: Index, track: int, k: nat)
    requires k < |ix| && ix[k].detection == track
    requires forall j :: 0 <= j < k ==> ix[j].detection != track
    ensures Position(ix, track) == Some(k)
  {
  }

  /** Two dicts whose entries agree wherever either holds `track`, up to the
      shorter one's end, with nothing for `track` beyond it, look it up alike. */
  lemma PositionAgrees(ix: Index, r: Index, t: int)
    requires |ix| <= |r|
    requires forall j :: 0 <= j < |ix| && (ix[j].detection == t || r[j].detection == t) ==> r[j] == ix[j]
    requires forall j :: |ix| <= j < |r| ==> r[j].detection != t
    ensures Lookup(r, t) == Lookup(ix, t)
  {
    var p := Position(ix, t);
    if p.Some? {
      PositionIsFirst(r, t, p.value);
    } else {
      assert forall j :: 0 <= j < |r| ==> r[j].detection != t;
    }
  }

  /** `_init_detection(session, m)`: store `m` if `session` is indexed, else nothing. */
  function StoreIfIndexed(sessions: map<string, Index>, session: string, m: DetectionMetadata): (r: map<string, Index>)
    ensures r.Keys == sessions.Keys
    ensures forall k :: k in sessions && k != session ==> r[k] == sessions[k]
    ensures session in sessions ==> Lookup(r[session], m.detection) == Some(m)
    ensures session in sessions ==>
      forall t :: t != m.detection ==> Lookup(r[session], t) == Lookup(sessions[session], t)
    ensures session in sessions ==> |r[session]| == |sessions[session]| + (if Lookup(sessions[session], m.detection).None? then 1 else 0)
    ensures session !in sessions ==> r == sessions
  {
    if session in sessions then sessions[session := Put(sessions[session], m)] else sessions
  }

  /** `_set_detection(current_session, m)`; `sessions.get(None)` finds nothing. */
  function StoreUnder(sessions: map<string, Index>, session: Option<string>, m: DetectionMetadata): (r: map<string, Index>)
    ensures session.None? ==> r == sessions
    ensures session.Some? ==> r == StoreIfIndexed(sessions, session.value, m)
  {
    match session
    case None => sessions
    case Some(c) => StoreIfIndexed(sessions, c, m)
  }

  lemma StorePreservesUniqueness(sessions: map<string, Index>, session: string, m: DetectionMetadata)
    requires forall k :: k in sessions ==> UniqueTracks(sessions[k])
    ensures var r := StoreIfIndexed(sessions, session, m);
      forall k :: k in r ==> UniqueTracks(r[k])
  {
  }

  /** `_get_detection(session, track)`: the stored record, or None when either
      the session or the track is absent. */
  function GetDetection(sessions: map<string, Index>, session: string, track: int): (r: Option<DetectionMetadata>)
    ensures r.Some? <==>
      session in sessions && exists i :: 0 <= i < |sessions[session]| && sessions[session][i].detection == track
    ensures r.Some? ==> r.value.detection == track && r.value in sessions[session]
  {
    if session in sessions then Lookup(sessions[session], track) else None
  }

  /** `len(self.sessions[session])`: a dict with unique keys has one entry per track. */
  function Count(ix: Index): nat
  {
    |ix|
  }

  /** The current revision's update of a stored record from a repeated
      detection: `updated` always follows the incoming record; score, width and
      height (and the image) only when the incoming score is strictly higher. */
  function BestShot(stored: DetectionMetadata, incoming: DetectionMetadata): (r: DetectionMetadata)
    ensures r.updated == incoming.updated
    ensures r.score == (if incoming.score > stored.score then incoming.score else stored.score)
    ensures incoming.score > stored.score ==> r.width == incoming.width && r.height == incoming.height
    ensures incoming.score <= stored.score ==> r.width == stored.width && r.height == stored.height
    ensures r.session == stored.session && r.detection == stored.detection
    ensures r.created == stored.created && r.clazz == stored.clazz
  {
    var touched := stored.(updated := incoming.updated);
    if incoming.score > stored.score then
      touched.(score := incoming.score, width := incoming.width, height := incoming.height)
    else touched
  }

  // ---------------------------------------------------------------------------
  // Files
  // ---------------------------------------------------------------------------

  /** Write `m` as JSON to `metadata/<m.detection>.json`, replacing any content. */
  function WriteMetadata(dir: SessionDir, m: DetectionMetadata): SessionDir
  {
    dir.(metadata := dir.metadata[MetadataFileName(m.detection) := Json(m)])
  }

  /** Write `image` to `images/<track>.jpg`, replacing any content. */
  function WriteImage(dir: SessionDir, track: int, image: Bytes): SessionDir
  {
    dir.(images := dir.images[ImageFileName(track) := image])
  }

  function Emptied(dir: SessionDir, which: SubDir): SessionDir
  {
    match which
    case Images => dir.(images := map[])
    case Metadata => dir.(metadata := map[])
  }

  function FileNames(dir: SessionDir, which: SubDir): set<string>
  {
    match which
    case Images => dir.images.Keys
    case Metadata => dir.metadata.Keys
  }

  function RemoveFile(dir: SessionDir, which: SubDir, name: string): SessionDir
  {
    match which
    case Images => dir.(images := dir.images - {name})
    case Metadata => dir.(metadata := dir.metadata - {name})
  }

  function ParseRecord(f: MetadataFile): Option<DetectionMetadata>
  {
    match f
    case Json(m) => Some(m)
    case Unreadable => None
  }

  /** The records of the metadata files `names`, in that order, skipping the
      files that do not parse. */
  function ParseInOrder(files: map<string, MetadataFile>, names: seq<string>): seq<DetectionMetadata>
    requires forall i :: 0 <= i < |names| ==> names[i] in files
    decreases |names|
  {
    if names == [] then []
    else
      var last := names[|names| - 1];
      ParseInOrder(files, names[..|names| - 1])
        + (match files[last] case Json(m) => [m] case Unreadable => [])
  }

  /** `_get_detections_metadata_for_session`: every parsable metadata file of
      the session, in file-name order. */
  ghost function Parsed(dir: SessionDir): seq<DetectionMetadata>
  {
    ParseInOrder(dir.metadata, Order.Sorted(dir.metadata.Keys))
  }

  /** A record is replayed exactly when one of the listed files holds it;
      unreadable files contribute nothing. */
  lemma {:induction false} ParsedMembership(files: map<string, MetadataFile>, names: seq<string>, m: DetectionMetadata)
    requires forall i :: 0 <= i < |names| ==> names[i] in files
    ensures m in ParseInOrder(files, names) <==> exists i :: 0 <= i < |names| && files[names[i]] == Json(m)
    decreases |names|
  {
    if names != [] {
      var init := names[..|names| - 1];
      ParsedMembership(files, init, m);
      if exists i :: 0 <= i < |init| && files[init[i]] == Json(m) {
        var i :| 0 <= i < |init| && files[init[i]] == Json(m);
        assert names[i] == init[i];
      }
      if exists i :: 0 <= i < |names| && files[names[i]] == Json(m) {
        var i :| 0 <= i < |names| && files[names[i]] == Json(m);
        if i < |init| {
          assert init[i] == names[i];
        }
      }
    }
  }

  /** Replaying records one `_init_detection` at a time. */
  function InsertAll(ix: Index, records: seq<DetectionMetadata>): (r: Index)
    ensures UniqueTracks(ix) ==> UniqueTracks(r)
    decreases |records|
  {
    if records == [] then ix
    else Put(InsertAll(ix, records[..|records| - 1]), records[|records| - 1])
  }

  /** Files holding distinct tracks are replayed into exactly their records, in order. */
  lemma {:induction false} InsertAllDistinct(records: seq<DetectionMetadata>)
    requires UniqueTracks(records)
    ensures InsertAll([], records) == records
    decreases |records|
  {
    if records != [] {
      var init := records[..|records| - 1];
      var last := records[|records| - 1];
      assert UniqueTracks(init);
      InsertAllDistinct(init);
      assert Lookup(init, last.detection).None? by {
        forall j | 0 <= j < |init|
          ensures init[j].detection != last.detection
        {
          assert init[j] == records[j];
        }
      }
      assert init + [last] == records;
    }
  }

  /** For each track the replayed dict holds the last file's record for it. */
  lemma {:induction false} InsertAllKeepsLast(ix: Index, records: seq<DetectionMetadata>, t: int)
    ensures Lookup(InsertAll(ix, records), t) ==
      if exists i :: 0 <= i < |records| && records[i].detection == t
      then Some(records[LastWith(records, t)])
      else Lookup(ix, t)
    decreases |records|
  {
    if records != [] {
      var init := records[..|records| - 1];
      InsertAllKeepsLast(ix, init, t);
      if exists i :: 0 <= i < |init| && init[i].detection == t {
        var i :| 0 <= i < |init| && init[i].detection == t;
        assert records[i].detection == t;
      }
    }
  }

  /** Index of the last record for track `t`. */
  function LastWith(records: seq<DetectionMetadata>, t: int): (k: nat)
    requires exists i :: 0 <= i < |records| && records[i].detection == t
    ensures k < |records| && records[k].detection == t
    ensures forall j :: k < j < |records| ==> records[j].detection != t
    decreases |records|
  {
    var init := records[..|records| - 1];
    if records[|records| - 1].detection == t then |records| - 1
    else
      var i :| 0 <= i < |records| && records[i].detection == t;
      assert init[i].detection == t;
      LastWith(init, t)
  }


  // ---------------------------------------------------------------------------
  // Names listed in a sequence
  // ---------------------------------------------------------------------------

  ghost function Members(vs: seq<string>): (r: set<string>)
    ensures forall x :: x in r <==> x in vs
  {
    set i | 0 <= i < |vs| :: vs[i]
  }

  lemma MembersSnoc(vs: seq<string>)
    requires vs != []
    ensures Members(vs) == Members(vs[..|vs| - 1]) + {vs[|vs| - 1]}
  {
    var init := vs[..|vs| - 1];
    forall x | x in vs
      ensures x in init || x == vs[|vs| - 1]
    {
      var i :| 0 <= i < |vs| && vs[i] == x;
      if i < |init| {
        assert init[i] == x;
      }
    }
  }

  ghost predicate Distinct(vs: seq<string>)
  {
    forall i, j :: 0 <= i < j < |vs| ==> vs[i] != vs[j]
  }

  lemma {:induction false} DistinctCount(vs: seq<string>)
    requires Distinct(vs)
    ensures |Members(vs)| == |vs|
    decreases |vs|
  {
    if vs != [] {
      var init := vs[..|vs| - 1];
      var v := vs[|vs| - 1];
      assert Distinct(init);
      DistinctCount(init);
      MembersSnoc(vs);
      forall i | 0 <= i < |init|
        ensures init[i] != v
      {
        assert init[i] == vs[i];
      }
    }
  }

  // ---------------------------------------------------------------------------
  // Start-up rebuild
  // ---------------------------------------------------------------------------

  function NewEvents(names: seq<string>): seq<CacheEvent>
    decreases |names|
  {
    if names == [] then [] else NewEvents(names[..|names| - 1]) + [SessionNew(names[|names| - 1])]
  }

  /** `_new_session(name)` followed by `_init_detection(name, m)` for every record read back. */
  ghost function ReplayOne(s: Snapshot, name: string): Snapshot
    requires name in s.disk
  {
    s.(sessions := s.sessions[name := InsertAll([], Parsed(s.disk[name]))],
       published := s.published + [SessionNew(name)])
  }

  ghost function Replay(s: Snapshot, names: seq<string>): (r: Snapshot)
    requires forall i :: 0 <= i < |names| ==> names[i] in s.disk
    ensures r.disk == s.disk && r.current == s.current
    ensures r.published == s.published + NewEvents(names)
    decreases |names|
  {
    if names == [] then s
    else
      var init := names[..|names| - 1];
      assert forall i :: 0 <= i < |init| ==> init[i] == names[i];
      var prior := Replay(s, init);
      var last := names[|names| - 1];
      assert s.published + NewEvents(names) == (s.published + NewEvents(init)) + [SessionNew(last)];
      ReplayOne(prior, last)
  }

  /** `init()`: replay every session directory in sorted order. */
  ghost function Rebuild(s: Snapshot): (r: Snapshot)
    ensures r.disk == s.disk && r.current == s.current
  {
    Replay(s, Order.Sorted(s.disk.Keys))
  }

  lemma {:induction false} ReplayKeys(s: Snapshot, names: seq<string>)
    requires forall i :: 0 <= i < |names| ==> names[i] in s.disk
    ensures Replay(s, names).sessions.Keys == s.sessions.Keys + Members(names)
    decreases |names|
  {
    if names != [] {
      ReplayKeys(s, names[..|names| - 1]);
      MembersSnoc(names);
    }
  }

  lemma {:induction false} ReplayEntry(s: Snapshot, names: seq<string>, k: string)
    requires forall i :: 0 <= i < |names| ==> names[i] in s.disk
    requires k in names || k in s.sessions
    ensures k in Replay(s, names).sessions
    ensures k in names ==> Replay(s, names).sessions[k] == InsertAll([], Parsed(s.disk[k]))
    ensures k !in names ==> Replay(s, names).sessions[k] == s.sessions[k]
    decreases |names|
  {
    if names != [] {
      var init := names[..|names| - 1];
      MembersSnoc(names);
      if k != names[|names| - 1] {
        ReplayEntry(s, init, k);
      }
    }
  }

  /** `init()` indexes every session directory, each with the records of its
      parsable metadata files replayed in file-name order, announces each one
      with "session.new" in ascending id order, and leaves sessions that have
      no directory as they were. */
  lemma RebuildIndexesEveryDirectory(s: Snapshot)
    ensures var r := Rebuild(s);
      && r.disk == s.disk && r.current == s.current
      && r.sessions.Keys == s.sessions.Keys + s.disk.Keys
      && (forall k :: k in s.disk ==> r.sessions[k] == InsertAll([], Parsed(s.disk[k])))
      && (forall k :: k in s.sessions && k !in s.disk ==> r.sessions[k] == s.sessions[k])
      && r.published == s.published + NewEvents(Order.Sorted(s.disk.Keys))
  {
    var names := Order.Sorted(s.disk.Keys);
    ReplayKeys(s, names);
    assert Members(names) == s.disk.Keys;
    forall k | k in s.disk || k in s.sessions
      ensures k in Rebuild(s).sessions
      ensures k in s.disk ==> Rebuild(s).sessions[k] == InsertAll([], Parsed(s.disk[k]))
      ensures k !in s.disk ==> Rebuild(s).sessions[k] == s.sessions[k]
    {
      ReplayEntry(s, names, k);
    }
  }

  /** `init()` keeps the index within the disk and leaves every directory
      indexed. */
  lemma RebuildCoherent(s: Snapshot)
    requires Coherent(s)
    ensures Coherent(Rebuild(s)) && Indexed(Rebuild(s))
  {
    RebuildIndexesEveryDirectory(s);
    assert UniqueTracks([]);
  }

  // ---------------------------------------------------------------------------
  // Retention sweep
  // ---------------------------------------------------------------------------

  function DeleteEvents(names: seq<string>): seq<CacheEvent>
    decreases |names|
  {
    if names == [] then [] else DeleteEvents(names[..|names| - 1]) + [SessionDelete(names[|names| - 1])]
  }

  /** Remove one session: its files and directory, then `_delete_session`,
      whose `del self.sessions[v]` raises KeyError for an unindexed session. */
  ghost function DeleteOne(s: Snapshot, v: string): (Snapshot, Outcome)
  {
    var s1 := s.(disk := s.disk - {v});
    if v in s1.sessions
    then (s1.(sessions := s1.sessions - {v}, published := s1.published + [SessionDelete(v)]), Ok)
    else (s1, Failed(KeyError))
  }

  /** Remove the sessions `victims` in order, stopping at the first failure. */
  ghost function DeleteEach(s: Snapshot, victims: seq<string>): (Snapshot, Outcome)
    decreases |victims|
  {
    if victims == [] then (s, Ok)
    else
      var prior := DeleteEach(s, victims[..|victims| - 1]);
      if prior.1.Failed? then prior else DeleteOne(prior.0, victims[|victims| - 1])
  }

  /** `_clean_up_sessions()` with `max_sessions == cap`: when the sorted
      listing has N >= cap names, delete the first N - cap of them; for a
      negative cap the index runs past the listing, so every session is
      deleted and then IndexError is raised. */
  ghost function Sweep(s: Snapshot, cap: int): (Snapshot, Outcome)
  {
    var names := Order.Sorted(s.disk.Keys);
    var n := |names|;
    if n < cap then (s, Ok)
    else if cap >= 0 then DeleteEach(s, names[..n - cap])
    else
      var all := DeleteEach(s, names);
      if all.1.Ok? then (all.0, Failed(IndexError)) else all
  }

  /** The sessions a sweep with `cap` removes when nothing fails. */
  ghost function Victims(s: Snapshot, cap: int): seq<string>
  {
    var names := Order.Sorted(s.disk.Keys);
    if |names| < cap then [] else if cap >= 0 then names[..|names| - cap] else names
  }

  lemma {:induction false} DeleteEachStops(s: Snapshot, victims: seq<string>, k: nat)
    requires k <= |victims|
    requires DeleteEach(s, victims[..k]).1.Failed?
    ensures DeleteEach(s, victims) == DeleteEach(s, victims[..k])
    decreases |victims| - k
  {
    if k < |victims| {
      assert victims[..k + 1][..k] == victims[..k];
      DeleteEachStops(s, victims, k + 1);
    } else {
      assert victims[..k] == victims;
    }
  }

  /** Deleting distinct indexed sessions removes exactly them, in order. */
  lemma {:induction false} DeleteEachFacts(s: Snapshot, vs: seq<string>)
    requires forall i :: 0 <= i < |vs| ==> vs[i] in s.disk && vs[i] in s.sessions
    requires Distinct(vs)
    ensures DeleteEach(s, vs).1 == Ok
    ensures DeleteEach(s, vs).0 == s.(disk := s.disk - Members(vs),
                                      sessions := s.sessions - Members(vs),
                                      published := s.published + DeleteEvents(vs))
    decreases |vs|
  {
    if vs != [] {
      var init := vs[..|vs| - 1];
      var v := vs[|vs| - 1];
      assert Distinct(init);
      DeleteEachFacts(s, init);
      MembersSnoc(vs);
      forall i | 0 <= i < |init|
        ensures init[i] != v
      {
        assert init[i] == vs[i];
      }
      assert (s.disk - Members(init)) - {v} == s.disk - Members(vs);
      assert (s.sessions - Members(init)) - {v} == s.sessions - Members(vs);
    }
  }

  lemma MapMinusCount(m: map<string, SessionDir>, vs: set<string>)
    requires vs <= m.Keys
    ensures |m - vs| == |m| - |vs|
  {
    assert (m - vs).Keys == m.Keys - vs;
    assert m.Keys == (m.Keys - vs) + vs;
  }

  /** The victims are the first N - cap names of the sorted listing, all distinct. */
  lemma VictimsArePrefix(s: Snapshot, cap: int)
    requires cap >= 0
    ensures var n := |s.disk|;
      var victims := Victims(s, cap);
      && victims == Order.Sorted(s.disk.Keys)[..|victims|]
      && |victims| == (if n >= cap then n - cap else 0)
      && Distinct(victims)
      && (forall i :: 0 <= i < |victims| ==> victims[i] in s.disk)
  {
    var names := Order.Sorted(s.disk.Keys);
    var victims := Victims(s, cap);
    forall i | 0 <= i < |victims|
      ensures victims[i] == names[i]
    {
    }
    Order.SortedAscending(s.disk.Keys);
    forall i, j | 0 <= i < j < |victims|
      ensures victims[i] != victims[j]
    {
      Order.AscendingDistinct(names, i, j);
    }
  }

  /** Every victim is below every name of the listing that is not one. */
  lemma VictimsAreOldest(s: Snapshot, cap: int, a: string, b: string)
    requires cap >= 0
    requires a in Victims(s, cap) && b in s.disk && b !in Victims(s, cap)
    ensures Order.Below(a, b)
  {
    var names := Order.Sorted(s.disk.Keys);
    var k := VictimCount(s, cap);
    assert b in names;
    var j :| 0 <= j < |names| && names[j] == b;
    assert names[k..][j - k] == b;
    Order.SortedPrefixIsOldest(s.disk.Keys, k, a, b);
  }

  /** The number of victims, which are that many names from the front of the listing. */
  lemma VictimCount(s: Snapshot, cap: int) returns (k: nat)
    requires cap >= 0
    ensures k <= |s.disk| && Victims(s, cap) == Order.Sorted(s.disk.Keys)[..k]
  {
    k := |Victims(s, cap)|;
  }

  /** Retention: with every session directory indexed and cap >= 0, the sweep
      succeeds and deletes from disk and index exactly the first N - cap
      sessions in ascending id order (none when N < cap), announcing each with
      "session.delete"; every other session is untouched, each deleted id is
      below every surviving one, and min(N, cap) sessions remain. */
  lemma SweepRetention(s: Snapshot, cap: int)
    requires Coherent(s) && Indexed(s)
    requires cap >= 0
    ensures var n := |s.disk|;
      var victims := Victims(s, cap);
      var r := Sweep(s, cap).0;
      && Sweep(s, cap).1 == Ok
      && victims == Order.Sorted(s.disk.Keys)[..|victims|]
      && |victims| == (if n >= cap then n - cap else 0)
      && r == s.(disk := s.disk - Members(victims),
                 sessions := s.sessions - Members(victims),
                 published := s.published + DeleteEvents(victims))
      && |r.disk| == (if n >= cap then cap else n)
      && (forall a, b :: a in victims && b in r.disk ==> Order.Below(a, b))
      && Coherent(r)
      && Indexed(r)
  {
    var victims := Victims(s, cap);
    VictimsArePrefix(s, cap);
    DeleteEachFacts(s, victims);
    DistinctCount(victims);
    MapMinusCount(s.disk, Members(victims));
    if |Order.Sorted(s.disk.Keys)| < cap {
      assert Order.Sorted(s.disk.Keys)[..0] == [];
      assert Sweep(s, cap).0 == s;
    }
    var r := Sweep(s, cap).0;
    forall a, b | a in victims && b in r.disk
      ensures Order.Below(a, b)
    {
      VictimsAreOldest(s, cap, a, b);
    }
  }

  // ---------------------------------------------------------------------------
  // Opening a session
  // ---------------------------------------------------------------------------

  /** `session(SessionState(state, session))` with `max_sessions == cap`: for
      `state` true, make `session` current, create its directory (FileExistsError
      if it exists), install an empty dict for it, announce it with
      "session.new" and sweep; for `state` false, nothing. */
  ghost function OpenSession(s: Snapshot, state: bool, session: string, cap: int): (Snapshot, Outcome)
  {
    if !state then (s, Ok)
    else
      var s1 := s.(current := Some(session));
      if session in s1.disk then (s1, Failed(FileExistsError))
      else Sweep(Created(s1, session), cap)
  }

  /** The state after the directories are made and `_new_session` has run. */
  ghost function Created(s: Snapshot, session: string): Snapshot
  {
    s.(disk := s.disk[session := EmptyDir],
       sessions := s.sessions[session := []],
       published := s.published + [SessionNew(session)])
  }

  /** The greatest name of the listing is never swept when cap >= 1. */
  lemma NewestSurvives(s: Snapshot, session: string, cap: int)
    requires session in s.disk
    requires forall k :: k in s.disk && k != session ==> Order.Below(k, session)
    requires cap >= 1
    ensures session !in Victims(s, cap)
  {
    var names := Order.Sorted(s.disk.Keys);
    var victims := Victims(s, cap);
    VictimsArePrefix(s, cap);
    Order.SortedAscending(s.disk.Keys);
    assert session in names;
    var n := |names|;
    var top := names[n - 1];
    assert top in s.disk;
    assert |victims| < n;
    forall i | 0 <= i < |victims|
      ensures victims[i] != session
    {
      NotNewest(names, i, session);
    }
  }

  lemma NotNewest(names: seq<string>, i: nat, session: string)
    requires Order.Ascending(names)
    requires i < |names| - 1
    requires session in names
    requires forall k :: k in names && k != session ==> Order.Below(k, session)
    ensures names[i] != session
  {
    var top := names[|names| - 1];
    if top == session {
      Order.AscendingDistinct(names, i, |names| - 1);
    } else {
      Order.BelowAsymmetric(top, session);
      assert Order.Below(names[i], top);
    }
  }

  /** Opening a session whose id is above every existing one (ids are
      timestamps) with cap >= 1: it becomes current with an empty directory and
      an empty dict, survives the sweep it triggers, and afterwards at most cap
      sessions exist; "session.new" precedes every "session.delete". */
  lemma OpenSessionEffects(s: Snapshot, session: string, cap: int)
    requires Coherent(s) && Indexed(s)
    requires session !in s.disk
    requires forall k :: k in s.disk ==> Order.Below(k, session)
    requires cap >= 1
    ensures var r := OpenSession(s, true, session, cap).0;
      && OpenSession(s, true, session, cap).1 == Ok
      && r.current == Some(session)
      && session in r.disk && r.disk[session] == EmptyDir
      && session in r.sessions && r.sessions[session] == []
      && |r.disk| <= cap
      && r.published == s.published + [SessionNew(session)] + DeleteEvents(Victims(Created(s.(current := Some(session)), session), cap))
      && Coherent(r) && Indexed(r)
  {
    var s2 := Created(s.(current := Some(session)), session);
    assert UniqueTracks([]);
    assert Coherent(s2);
    SweepRetention(s2, cap);
    NewestSurvives(s2, session, cap);
  }

  /** Any open, whatever its id, with cap >= 0 keeps the index coherent and
      every directory indexed. */
  lemma OpenSessionKeepsIndexed(s: Snapshot, state: bool, session: string, cap: int)
    requires Coherent(s) && Indexed(s)
    requires cap >= 0
    ensures Coherent(OpenSession(s, state, session, cap).0) && Indexed(OpenSession(s, state, session, cap).0)
  {
    if state && session !in s.disk {
      var s2 := Created(s.(current := Some(session)), session);
      assert UniqueTracks([]);
      SweepRetention(s2, cap);
    }
  }

  // ---------------------------------------------------------------------------
  // Queries
  // ---------------------------------------------------------------------------

  /** `_list_sessions()`: one (id, number of detections) pair per indexed
      session, in ascending id order. */
  ghost function Catalogue(sessions: map<string, Index>): (r: seq<(string, nat)>)
    ensures |r| == |sessions|
    ensures forall i :: 0 <= i < |r| ==> r[i].0 in sessions && r[i].1 == |sessions[r[i].0]|
    ensures forall k :: k in sessions ==> exists i :: 0 <= i < |r| && r[i].0 == k
    ensures forall i, j :: 0 <= i < j < |r| ==> Order.Below(r[i].0, r[j].0)
  {
    var names := Order.Sorted(sessions.Keys);
    var r := seq(|names|, i requires 0 <= i < |names| => (names[i], |sessions[names[i]]|));
    Order.SortedAscending(sessions.Keys);
    CatalogueFacts(sessions, names, r);
    r
  }

  /** The pairs built from an ascending listing of exactly the indexed sessions. */
  lemma CatalogueFacts(sessions: map<string, Index>, names: seq<string>, r: seq<(string, nat)>)
    requires |names| == |sessions.Keys| && Order.Ascending(names)
    requires forall x :: x in names <==> x in sessions
    requires |r| == |names|
    requires forall i :: 0 <= i < |r| ==> r[i] == (names[i], |sessions[names[i]]|)
    ensures |r| == |sessions|
    ensures forall i :: 0 <= i < |r| ==> r[i].0 in sessions && r[i].1 == |sessions[r[i].0]|
    ensures forall k :: k in sessions ==> exists i :: 0 <= i < |r| && r[i].0 == k
    ensures forall i, j :: 0 <= i < j < |r| ==> Order.Below(r[i].0, r[j].0)
  {
    assert |sessions.Keys| == |sessions|;
    forall k | k in sessions
      ensures exists i :: 0 <= i < |r| && r[i].0 == k
    {
      var i :| 0 <= i < |names| && names[i] == k;
      assert r[i].0 == k;
    }
  }

  /** The "session.details" messages answering a "sessions" request. */
  function CatalogueEvents(c: seq<(string, nat)>): (r: seq<CacheEvent>)
    ensures |r| == |c|
    ensures forall i :: 0 <= i < |c| ==> r[i] == SessionDetailsMsg(c[i].0, c[i].1)
  {
    seq(|c|, i requires 0 <= i < |c| => SessionDetailsMsg(c[i].0, c[i].1))
  }

  /** The "detection" messages answering a "session.detections" request. */
  function DetailEvents(d: seq<(DetectionMetadata, Bytes)>): (r: seq<CacheEvent>)
    ensures |r| == |d|
    ensures forall i :: 0 <= i < |d| ==> r[i] == DetectionMsg(d[i].0, d[i].1)
  {
    seq(|d|, i requires 0 <= i < |d| => DetectionMsg(d[i].0, d[i].1))
  }

  /** `images/<track>.jpg` exists for every record of the dict. */
  ghost predicate ImagesOnDisk(ix: Index, disk: map<string, SessionDir>, session: string)
  {
    |ix| == 0 || (session in disk && forall i :: 0 <= i < |ix| ==> ImageFileName(ix[i].detection) in disk[session].images)
  }

  /** Each record paired with the content of its image file. */
  ghost function WithImages(ix: Index, disk: map<string, SessionDir>, session: string): (r: seq<(DetectionMetadata, Bytes)>)
    requires ImagesOnDisk(ix, disk, session)
    ensures |r| == |ix|
    ensures session in disk ==>
      forall i :: 0 <= i < |ix| ==> r[i] == (ix[i], disk[session].images[ImageFileName(ix[i].detection)])
  {
    if |ix| == 0 then []
    else seq(|ix|, i requires 0 <= i < |ix| => (ix[i], disk[session].images[ImageFileName(ix[i].detection)]))
  }

  function Reverse(ix: Index): (r: Index)
    ensures |r| == |ix|
    ensures forall i :: 0 <= i < |ix| ==> r[i] == ix[|ix| - 1 - i]
  {
    seq(|ix|, i requires 0 <= i < |ix| => ix[|ix| - 1 - i])
  }

  // ---------------------------------------------------------------------------
  // Repeated detections
  // ---------------------------------------------------------------------------

  /** The stored best shot does not depend on the order in which two repeated
      detections arrive: its score is the largest of the three, and `updated`
      follows the later one. */
  lemma BestShotScoreIsMaximum(stored: DetectionMetadata, a: DetectionMetadata, b: DetectionMetadata)
    ensures var ab := BestShot(BestShot(stored, a), b);
      var ba := BestShot(BestShot(stored, b), a);
      && ab.score == ba.score
      && ab.score >= stored.score && ab.score >= a.score && ab.score >= b.score
      && (ab.score == stored.score || ab.score == a.score || ab.score == b.score)
      && ab.updated == b.updated && ba.updated == a.updated
  {
  }

  /** Once a session has seen a detection of a track, the stored score of that
      track never decreases however later detections arrive. */
  lemma {:induction false} BestShotMonotone(stored: DetectionMetadata, later: seq<DetectionMetadata>)
    ensures MergeAll(stored, later).score >= stored.score
    ensures forall i :: 0 <= i < |later| ==> MergeAll(stored, later).score >= later[i].score
    ensures MergeAll(stored, later).detection == stored.detection && MergeAll(stored, later).created == stored.created
    decreases |later|
  {
    if later != [] {
      var init := later[..|later| - 1];
      BestShotMonotone(stored, init);
      forall i | 0 <= i < |init|
        ensures later[i] == init[i]
      {
      }
    }
  }

  /** The stored record after the detections `later`, in order. */
  function MergeAll(stored: DetectionMetadata, later: seq<DetectionMetadata>): DetectionMetadata
    decreases |later|
  {
    if later == [] then stored else BestShot(MergeAll(stored, later[..|later| - 1]), later[|later| - 1])
  }
}
