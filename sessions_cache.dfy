/** The session cache in use (`trap.sessions.sessions_cache.SessionsCache`):
    the index of sessions and their detections, kept alongside the session
    directories, updated from the capture workflow's session and detection
    messages and queried by the app. */
module Sessions {
  import opened Records
  import opened CacheCore
  import Order
  import SettingsStore

  /** `detection(d)` for `d = (m, image)`. A track the session's dict does not
      hold gets both files written into `m.session`'s directory, then
      `_new_detection`: KeyError when that session is not indexed, otherwise
      the record is stored and "detection" and "session.details" go out. A
      track it holds gets the stored record updated in place by the best-shot
      rule (the image rewritten only for a strictly higher score), re-stored
      under the current session, and its metadata file rewritten; nothing is
      published. A missing directory raises FileNotFoundError at the first
      write into it. */
  ghost function OnDetection(s: Snapshot, m: DetectionMetadata, image: Bytes): (Snapshot, Outcome)
  {
    match GetDetection(s.sessions, m.session, m.detection)
    case None => OnNewTrack(s, m, image)
    case Some(stored) => OnKnownTrack(s, m, image, stored)
  }

  ghost function OnNewTrack(s: Snapshot, m: DetectionMetadata, image: Bytes): (Snapshot, Outcome)
  {
    var session := m.session;
    if session !in s.disk then (s, Failed(FileNotFoundError))
    else
      var s1 := s.(disk := s.disk[session := WriteImage(WriteMetadata(s.disk[session], m), m.detection, image)]);
      if session !in s1.sessions then (s1, Failed(KeyError))
      else
        var ix := Put(s1.sessions[session], m);
        (s1.(sessions := s1.sessions[session := ix],
             published := s1.published + [DetectionMsg(m, image), SessionDetailsMsg(session, |ix|)]), Ok)
  }

  ghost function OnKnownTrack(s: Snapshot, m: DetectionMetadata, image: Bytes, stored: DetectionMetadata): (Snapshot, Outcome)
    requires m.session in s.sessions
  {
    var session := m.session;
    var merged := BestShot(stored, m);
    var better := m.score > stored.score;
    var s1 := s.(sessions := s.sessions[session := Put(s.sessions[session], merged)]);
    if better && session !in s1.disk then (s1, Failed(FileNotFoundError))
    else
      var s2 := if better then s1.(disk := s1.disk[session := WriteImage(s1.disk[session], m.detection, image)]) else s1;
      var s3 := s2.(sessions := StoreUnder(s2.sessions, s2.current, merged));
      if session !in s3.disk then (s3, Failed(FileNotFoundError))
      else (s3.(disk := s3.disk[session := WriteMetadata(s3.disk[session], merged)]), Ok)
  }

  /** `_get_detections_for_session(session)`: the session's records newest
      first, each with its image; AttributeError when the session is not
      indexed (`None.values()`), AssertionError when an image file is missing. */
  ghost function DetailQuery(sessions: map<string, Index>, disk: map<string, SessionDir>, session: string): (r: Result<seq<(DetectionMetadata, Bytes)>>)
  {
    if session !in sessions then Failure(AttributeError)
    else if !ImagesOnDisk(sessions[session], disk, session) then Failure(AssertionError)
    else Success(WithImages(Reverse(sessions[session]), disk, session))
  }

  /** The answer to a detail query lists the session's records in reverse
      insertion order, each paired with its image file; it fails exactly when
      the session is not indexed or one of its images is missing. */
  lemma DetailQueryNewestFirst(sessions: map<string, Index>, disk: map<string, SessionDir>, session: string)
    ensures var r := DetailQuery(sessions, disk, session);
      && (r.Success? <==> session in sessions && ImagesOnDisk(sessions[session], disk, session))
      && (session !in sessions ==> r == Failure(AttributeError))
      && (session in sessions && r.Failure? ==> r.fault == AssertionError)
      && (r.Success? ==>
            var ix := sessions[session];
            && |r.value| == |ix|
            && (session in disk ==>
                  forall i :: 0 <= i < |ix| ==>
                    r.value[i] == (ix[|ix| - 1 - i], disk[session].images[ImageFileName(ix[|ix| - 1 - i].detection)])))
  {
    if session in sessions {
      ReverseImagesOnDisk(sessions[session], disk, session);
    }
  }

  /** Reversing the records does not change whether their images are all present. */
  lemma ReverseImagesOnDisk(ix: Index, disk: map<string, SessionDir>, session: string)
    ensures ImagesOnDisk(Reverse(ix), disk, session) <==> ImagesOnDisk(ix, disk, session)
  {
    var rev := Reverse(ix);
    if session in disk {
      var images := disk[session].images;
      if forall i :: 0 <= i < |ix| ==> ImageFileName(ix[i].detection) in images {
        forall i | 0 <= i < |rev|
          ensures ImageFileName(rev[i].detection) in images
        {
          assert rev[i] == ix[|ix| - 1 - i];
        }
      }
      if forall i :: 0 <= i < |rev| ==> ImageFileName(rev[i].detection) in images {
        forall i | 0 <= i < |ix|
          ensures ImageFileName(ix[i].detection) in images
        {
          assert rev[|ix| - 1 - i] == ix[i];
        }
      }
    }
  }

  /** A detection of a track new to an indexed session writes its metadata and
      image files into that session's directory, appends the record to the
      session's dict and publishes "detection" followed by "session.details"
      with the new count; nothing else changes. */
  lemma NewDetectionEffects(s: Snapshot, m: DetectionMetadata, image: Bytes)
    requires Coherent(s)
    requires m.session in s.sessions
    requires GetDetection(s.sessions, m.session, m.detection).None?
    ensures var (r, o) := OnDetection(s, m, image);
      && o == Ok
      && m.session in r.disk
      && r.disk[m.session].metadata == s.disk[m.session].metadata[MetadataFileName(m.detection) := Json(m)]
      && r.disk[m.session].images == s.disk[m.session].images[ImageFileName(m.detection) := image]
      && (forall k :: k in s.disk && k != m.session ==> k in r.disk && r.disk[k] == s.disk[k])
      && r.disk.Keys == s.disk.Keys
      && r.sessions == s.sessions[m.session := s.sessions[m.session] + [m]]
      && r.published == s.published + [DetectionMsg(m, image), SessionDetailsMsg(m.session, |s.sessions[m.session]| + 1)]
      && r.current == s.current
      && Coherent(r)
  {
  }

  /** A detection of a new track fails with FileNotFoundError, changing
      nothing, when its session has no directory, and with KeyError, after
      writing both files, when its session has a directory but no dict. */
  lemma NewDetectionFailures(s: Snapshot, m: DetectionMetadata, image: Bytes)
    requires GetDetection(s.sessions, m.session, m.detection).None?
    ensures m.session !in s.disk ==> OnDetection(s, m, image) == (s, Failed(FileNotFoundError))
    ensures m.session in s.disk && m.session !in s.sessions ==>
      OnDetection(s, m, image) ==
        (s.(disk := s.disk[m.session := WriteImage(WriteMetadata(s.disk[m.session], m), m.detection, image)]), Failed(KeyError))
  {
  }

  /** A repeated detection of a stored track whose session has a directory
      (as in every coherent state): it succeeds without publishing anything;
      the session's dict keeps its size and now holds for the track the
      best-shot merge of the stored and incoming records, and so does the
      current session's dict when that session is indexed; no other dict
      changes. */
  lemma KnownTrackIndex(s: Snapshot, m: DetectionMetadata, image: Bytes, stored: DetectionMetadata)
    requires GetDetection(s.sessions, m.session, m.detection) == Some(stored)
    requires m.session in s.disk
    ensures var merged := BestShot(stored, m);
      var r := OnDetection(s, m, image).0;
      && OnDetection(s, m, image).1 == Ok
      && r.sessions.Keys == s.sessions.Keys
      && Lookup(r.sessions[m.session], m.detection) == Some(merged)
      && |r.sessions[m.session]| == |s.sessions[m.session]|
      && (forall t :: t != m.detection ==> Lookup(r.sessions[m.session], t) == Lookup(s.sessions[m.session], t))
      && (r.current.Some? && r.current.value in s.sessions ==>
            Lookup(r.sessions[r.current.value], m.detection) == Some(merged))
      && (forall k :: k in s.sessions && k != m.session && Some(k) != s.current ==> r.sessions[k] == s.sessions[k])
      && r.published == s.published
      && r.current == s.current
  {
    var merged := BestShot(stored, m);
    var ix := s.sessions[m.session];
    KnownTrackOutcome(s, m, image, stored);
    assert Lookup(ix, m.detection).Some?;
    var sessions1 := s.sessions[m.session := Put(ix, merged)];
    assert |Put(ix, merged)| == |ix|;
    if s.current.Some? && s.current.value == m.session {
      assert Lookup(Put(ix, merged), m.detection).Some?;
      assert |Put(Put(ix, merged), merged)| == |ix|;
    }
  }

  /** The index, log and outcome after a repeated detection whose session
      has a directory: the merge replaces the stored record in its own
      session's dict and is then re-stored under the current session. */
  lemma KnownTrackOutcome(s: Snapshot, m: DetectionMetadata, image: Bytes, stored: DetectionMetadata)
    requires GetDetection(s.sessions, m.session, m.detection) == Some(stored)
    requires m.session in s.disk
    ensures var merged := BestShot(stored, m);
      var (r, o) := OnDetection(s, m, image);
      && o == Ok
      && r.sessions == StoreUnder(s.sessions[m.session := Put(s.sessions[m.session], merged)], s.current, merged)
      && r.published == s.published
      && r.current == s.current
  {
  }

  /** A repeated detection of a stored track whose session has a directory:
      the metadata file then holds the merged record, the image file is
      replaced exactly when the incoming score is strictly higher, and no
      other directory changes. */
  lemma KnownTrackFiles(s: Snapshot, m: DetectionMetadata, image: Bytes, stored: DetectionMetadata)
    requires GetDetection(s.sessions, m.session, m.detection) == Some(stored)
    requires m.session in s.disk
    ensures var merged := BestShot(stored, m);
      var r := OnDetection(s, m, image).0;
      && r.disk.Keys == s.disk.Keys
      && r.disk[m.session].metadata == s.disk[m.session].metadata[MetadataFileName(m.detection) := Json(merged)]
      && r.disk[m.session].images ==
           (if m.score > stored.score then s.disk[m.session].images[ImageFileName(m.detection) := image]
            else s.disk[m.session].images)
      && (forall k :: k in s.disk && k != m.session ==> r.disk[k] == s.disk[k])
  {
  }

  /** Every detection, whatever its outcome, keeps the index coherent with the disk. */
  lemma DetectionKeepsCoherent(s: Snapshot, m: DetectionMetadata, image: Bytes)
    requires Coherent(s)
    ensures Coherent(OnDetection(s, m, image).0)
    ensures Indexed(s) ==> Indexed(OnDetection(s, m, image).0)
  {
    match GetDetection(s.sessions, m.session, m.detection)
    case None =>
    case Some(stored) =>
      var merged := BestShot(stored, m);
      var sessions1 := s.sessions[m.session := Put(s.sessions[m.session], merged)];
      if s.current.Some? {
        StorePreservesUniqueness(sessions1, s.current.value, merged);
      }
  }

  /** Every directory stays indexed: `init()` establishes it from any state,
      and a detection and a session open (for cap >= 0) keep it. */
  lemma IndexedInvariant(s: Snapshot, m: DetectionMetadata, image: Bytes, state: bool, session: string, cap: int)
    ensures Indexed(Rebuild(s))
    ensures Coherent(s) && Indexed(s) ==> Indexed(OnDetection(s, m, image).0)
    ensures Coherent(s) && Indexed(s) && cap >= 0 ==> Indexed(OpenSession(s, state, session, cap).0)
  {
    RebuildIndexesEveryDirectory(s);
    if Coherent(s) && Indexed(s) {
      DetectionKeepsCoherent(s, m, image);
      if cap >= 0 {
        OpenSessionKeepsIndexed(s, state, session, cap);
      }
    }
  }

  class SessionsCache {
    /** `self.sessions`: session id to its dict of records. */
    var sessions: map<string, Index>
    var currentSession: Option<string>
    /** The sessions root directory. */
    var disk: map<string, SessionDir>
    /** Messages published on the protocol channel, oldest first. */
    var published: seq<CacheEvent>
    /** The settings component, read for `max_sessions` at every sweep. */
    const settings: SettingsStore.SettingsDatabase

    ghost function State(): Snapshot
      reads this
    {
      Snapshot(sessions, currentSession, disk, published)
    }

    /** `__init__`: an empty index over the existing directories; `init()` is
        started separately. */
    constructor(root: map<string, SessionDir>, settings: SettingsStore.SettingsDatabase)
      ensures State() == Snapshot(map[], None, root, [])
      ensures this.settings == settings
    {
      sessions := map[];
      currentSession := None;
      disk := root;
      published := [];
      this.settings := settings;
    }

    /** `init()`: rebuild the index from the session directories. */
    method Init()
      modifies this
      ensures State() == Rebuild(old(State()))
    {
      var names := Order.SortNames(disk.Keys);
      ReplaySessions(names);
    }

    /** The outer loop of `init()`: `_new_session` and then the replay of the
        metadata files, for each listed session in turn. */
    method ReplaySessions(names: seq<string>)
      requires forall k :: 0 <= k < |names| ==> names[k] in disk
      modifies this
      ensures State() == Replay(old(State()), names)
    {
      ghost var s0 := State();
      var i := 0;
      while i < |names|
        invariant 0 <= i <= |names|
        invariant disk == s0.disk
        invariant State() == Replay(s0, names[..i])
      {
        ReplaySession(names[i]);
        ReplaySnoc(s0, names, i);
        i := i + 1;
      }
      assert names[..i] == names;
    }

    /** One pass of that loop. */
    method ReplaySession(name: string)
      requires name in disk
      modifies this
      ensures State() == ReplayOne(old(State()), name)
    {
      NewSession(name);
      var parsed := GetDetectionsMetadataForSession(name);
      InitDetections(name, parsed.value);
    }

    /** The inner loop of `init()`: `_init_detection(session, m)` for each record in turn. */
    method InitDetections(session: string, records: seq<DetectionMetadata>)
      requires session in sessions
      modifies this
      ensures sessions == old(sessions)[session := InsertAll(old(sessions)[session], records)]
      ensures disk == old(disk) && currentSession == old(currentSession) && published == old(published)
    {
      ghost var base := sessions[session];
      var j := 0;
      while j < |records|
        invariant 0 <= j <= |records|
        invariant sessions == old(sessions)[session := InsertAll(base, records[..j])]
        invariant disk == old(disk) && currentSession == old(currentSession) && published == old(published)
      {
        InitStep(sessions, session, records, j, base);
        InitDetection(session, records[j]);
        j := j + 1;
      }
      assert records[..j] == records;
    }

    /** `session(SessionState(state, session))`. */
    method Session(state: bool, session: string) returns (status: Outcome)
      modifies this
      ensures (State(), status) == OpenSession(old(State()), state, session, settings.settings.maxSessions)
    {
      if !state {
        return Ok;
      }
      currentSession := Some(session);
      if session in disk {
        return Failed(FileExistsError);
      }
      disk := disk[session := EmptyDir];
      NewSession(session);
      status := CleanUpSessions();
    }

    /** `detection(DetectionMetaDataWithImage(m, image))`. */
    method Detection(m: DetectionMetadata, image: Bytes) returns (status: Outcome)
      modifies this
      ensures (State(), status) == OnDetection(old(State()), m, image)
    {
      var session := m.session;
      var meta := GetDetection(sessions, session, m.detection);
      if meta.None? {
        status := DetectNewTrack(m, image);
      } else {
        status := DetectKnownTrack(m, image, meta.value);
      }
    }

    /** The branch of `detection` for a track the session's dict does not hold. */
    method DetectNewTrack(m: DetectionMetadata, image: Bytes) returns (status: Outcome)
      modifies this
      ensures (State(), status) == OnNewTrack(old(State()), m, image)
    {
      var session := m.session;
      if session !in disk {
        return Failed(FileNotFoundError);
      }
      // the metadata file, then the image file
      disk := disk[session := WriteImage(WriteMetadata(disk[session], m), m.detection, image)];
      status := NewDetection(m, image);
    }

    /** The branch of `detection` for a track the session's dict holds as `stored`. */
    method DetectKnownTrack(m: DetectionMetadata, image: Bytes, stored: DetectionMetadata) returns (status: Outcome)
      requires m.session in sessions
      modifies this
      ensures (State(), status) == OnKnownTrack(old(State()), m, image, stored)
    {
      var session := m.session;
      var merged := BestShot(stored, m);
      // the stored record object is updated in place
      sessions := sessions[session := Put(sessions[session], merged)];
      if m.score > stored.score {
        if session !in disk {
          return Failed(FileNotFoundError);
        }
        disk := disk[session := WriteImage(disk[session], m.detection, image)];
      }
      SetDetection(currentSession, merged);
      if session !in disk {
        return Failed(FileNotFoundError);
      }
      disk := disk[session := WriteMetadata(disk[session], merged)];
      status := Ok;
    }

    /** `handle_message`: "sessions" publishes the catalogue, "session.detections"
        publishes the session's records with their images (nothing at all when
        the query fails), anything else is ignored. */
    method HandleMessage(identifier: string, session: string) returns (status: Outcome)
      modifies this
      ensures sessions == old(sessions) && disk == old(disk) && currentSession == old(currentSession)
      ensures identifier == "sessions" ==>
        status == Ok && published == old(published) + CatalogueEvents(Catalogue(old(sessions)))
      ensures identifier == "session.detections" ==>
        match DetailQuery(old(sessions), old(disk), session)
        case Success(d) => status == Ok && published == old(published) + DetailEvents(d)
        case Failure(f) => status == Failed(f) && published == old(published)
      ensures identifier != "sessions" && identifier != "session.detections" ==>
        status == Ok && published == old(published)
    {
      status := Ok;
      if identifier == "sessions" {
        var catalogue := ListSessions();
        PublishCatalogue(catalogue);
      } else if identifier == "session.detections" {
        var details := GetDetectionsForSession(session);
        if details.Failure? {
          return Failed(details.fault);
        }
        PublishDetails(details.value);
      }
    }

    /** The "sessions" reply: one "session.details" message per entry. */
    method PublishCatalogue(catalogue: seq<(string, nat)>)
      modifies this
      ensures sessions == old(sessions) && disk == old(disk) && currentSession == old(currentSession)
      ensures published == old(published) + CatalogueEvents(catalogue)
    {
      var i := 0;
      while i < |catalogue|
        invariant 0 <= i <= |catalogue|
        invariant sessions == old(sessions) && disk == old(disk) && currentSession == old(currentSession)
        invariant published == old(published) + CatalogueEvents(catalogue[..i])
      {
        published := published + [SessionDetailsMsg(catalogue[i].0, catalogue[i].1)];
        assert CatalogueEvents(catalogue[..i + 1]) == CatalogueEvents(catalogue[..i]) + [SessionDetailsMsg(catalogue[i].0, catalogue[i].1)];
        i := i + 1;
      }
      assert catalogue[..i] == catalogue;
    }

    /** The "session.detections" reply: one "detection" message per record. */
    method PublishDetails(d: seq<(DetectionMetadata, Bytes)>)
      modifies this
      ensures sessions == old(sessions) && disk == old(disk) && currentSession == old(currentSession)
      ensures published == old(published) + DetailEvents(d)
    {
      var i := 0;
      while i < |d|
        invariant 0 <= i <= |d|
        invariant sessions == old(sessions) && disk == old(disk) && currentSession == old(currentSession)
        invariant published == old(published) + DetailEvents(d[..i])
      {
        published := published + [DetectionMsg(d[i].0, d[i].1)];
        assert DetailEvents(d[..i + 1]) == DetailEvents(d[..i]) + [DetectionMsg(d[i].0, d[i].1)];
        i := i + 1;
      }
      assert d[..i] == d;
    }

    /** `_list_sessions()`. */
    method ListSessions() returns (r: seq<(string, nat)>)
      ensures r == Catalogue(sessions)
    {
      var index := sessions;
      var names := Order.SortNames(index.Keys);
      r := seq(|names|, i requires 0 <= i < |names| => (names[i], |index[names[i]]|));
    }

    /** `_get_detections_for_session(session)`: reverse the session's records,
        then read each one's image, asserting that it exists. */
    method GetDetectionsForSession(session: string) returns (r: Result<seq<(DetectionMetadata, Bytes)>>)
      ensures r == DetailQuery(sessions, disk, session)
    {
      if session !in sessions {
        return Failure(AttributeError);
      }
      var ix := sessions[session];
      var list := Reverse(ix);
      ReverseImagesOnDisk(ix, disk, session);
      r := PairWithImages(session, list);
    }

    /** The loop of `_get_detections_for_session`: each record with its
        image, stopping at the first missing one. */
    method PairWithImages(session: string, list: Index) returns (r: Result<seq<(DetectionMetadata, Bytes)>>)
      ensures ImagesOnDisk(list, disk, session) ==> r == Success(WithImages(list, disk, session))
      ensures !ImagesOnDisk(list, disk, session) ==> r == Failure(AssertionError)
    {
      var out: seq<(DetectionMetadata, Bytes)> := [];
      var i := 0;
      while i < |list|
        invariant 0 <= i <= |list|
        invariant i > 0 ==> session in disk
        invariant |out| == i
        invariant session in disk ==>
          forall k :: 0 <= k < i ==>
            && ImageFileName(list[k].detection) in disk[session].images
            && out[k] == (list[k], disk[session].images[ImageFileName(list[k].detection)])
      {
        var image := GetImageData(session, list[i].detection);
        if image.Failure? {
          return Failure(image.fault);
        }
        out := out + [(list[i], image.value)];
        i := i + 1;
      }
      assert ImagesOnDisk(list, disk, session);
      assert out == WithImages(list, disk, session);
      r := Success(out);
    }

    /** `_get_image_data(session, track)`: the image file's bytes, after
        asserting that it exists. */
    method GetImageData(session: string, track: int) returns (r: Result<Bytes>)
      ensures session in disk && ImageFileName(track) in disk[session].images ==>
        r == Success(disk[session].images[ImageFileName(track)])
      ensures !(session in disk && ImageFileName(track) in disk[session].images) ==> r == Failure(AssertionError)
    {
      if session in disk && ImageFileName(track) in disk[session].images {
        r := Success(disk[session].images[ImageFileName(track)]);
      } else {
        r := Failure(AssertionError);
      }
    }

    /** `_new_session(session)`: install an empty dict, replacing any, and
        publish "session.new". */
    method NewSession(session: string)
      modifies this
      ensures sessions == old(sessions)[session := []]
      ensures published == old(published) + [SessionNew(session)]
      ensures disk == old(disk) && currentSession == old(currentSession)
    {
      sessions := sessions[session := []];
      published := published + [SessionNew(session)];
    }

    /** `_delete_session(session)`: drop the dict and publish
        "session.delete"; KeyError, with nothing changed, for an unindexed session. */
    method DeleteSession(session: string) returns (status: Outcome)
      modifies this
      ensures session in old(sessions) ==>
        status == Ok && sessions == old(sessions) - {session}
        && published == old(published) + [SessionDelete(session)]
      ensures session !in old(sessions) ==>
        status == Failed(KeyError) && sessions == old(sessions) && published == old(published)
      ensures disk == old(disk) && currentSession == old(currentSession)
    {
      if session !in sessions {
        return Failed(KeyError);
      }
      sessions := sessions - {session};
      published := published + [SessionDelete(session)];
      status := Ok;
    }

    /** `_new_detection(d)`: store the record in its session's dict and
        publish "detection" and "session.details" with the new count; KeyError
        (`self.sessions[session]`), with nothing changed, for an unindexed session. */
    method NewDetection(m: DetectionMetadata, image: Bytes) returns (status: Outcome)
      modifies this
      ensures m.session in old(sessions) ==>
        var ix := Put(old(sessions)[m.session], m);
        && status == Ok
        && sessions == old(sessions)[m.session := ix]
        && published == old(published) + [DetectionMsg(m, image), SessionDetailsMsg(m.session, |ix|)]
      ensures m.session !in old(sessions) ==>
        status == Failed(KeyError) && sessions == old(sessions) && published == old(published)
      ensures disk == old(disk) && currentSession == old(currentSession)
    {
      if m.session !in sessions {
        return Failed(KeyError);
      }
      var ix := Put(sessions[m.session], m);
      sessions := sessions[m.session := ix];
      published := published + [DetectionMsg(m, image), SessionDetailsMsg(m.session, Count(ix))];
      status := Ok;
    }

    /** `_init_detection(session, m)`. */
    method InitDetection(session: string, m: DetectionMetadata)
      modifies this
      ensures sessions == StoreIfIndexed(old(sessions), session, m)
      ensures disk == old(disk) && currentSession == old(currentSession) && published == old(published)
    {
      sessions := StoreIfIndexed(sessions, session, m);
    }

    /** `_set_detection(session, m)`; the session may be None. */
    method SetDetection(session: Option<string>, m: DetectionMetadata)
      modifies this
      ensures sessions == StoreUnder(old(sessions), session, m)
      ensures disk == old(disk) && currentSession == old(currentSession) && published == old(published)
    {
      sessions := StoreUnder(sessions, session, m);
    }

    /** `_clean_up_sessions()`, with `max_sessions` read from the settings. */
    method CleanUpSessions() returns (status: Outcome)
      modifies this
      ensures (State(), status) == Sweep(old(State()), settings.settings.maxSessions)
    {
      var cap := settings.settings.maxSessions;
      var names := Order.SortNames(disk.Keys);
      var n := |names|;
      if n < cap {
        return Ok;
      }
      status := DeleteListed(names, n - cap);
    }

    /** The loop of `_clean_up_sessions()`: delete `names[idx]` for each
        `idx` below `count`, stopping at the first failure; an index past the
        listing raises IndexError. */
    method DeleteListed(names: seq<string>, count: nat) returns (status: Outcome)
      modifies this
      ensures count <= |names| ==> (State(), status) == DeleteEach(old(State()), names[..count])
      ensures count > |names| ==>
        var all := DeleteEach(old(State()), names);
        (State(), status) == if all.1.Ok? then (all.0, Failed(IndexError)) else all
    {
      ghost var s0 := State();
      var idx := 0;
      while idx < count
        invariant 0 <= idx <= count && idx <= |names|
        invariant DeleteEach(s0, names[..idx]) == (State(), Ok)
      {
        if idx == |names| {
          // `sessions[idx]` runs past the listing
          assert names[..idx] == names;
          return Failed(IndexError);
        }
        var victim := names[idx];
        status := DeleteVictim(victim);
        assert names[..idx + 1][..idx] == names[..idx];
        if status.Failed? {
          if count <= |names| {
            assert names[..count][..idx + 1] == names[..idx + 1];
            DeleteEachStops(s0, names[..count], idx + 1);
          } else {
            DeleteEachStops(s0, names, idx + 1);
          }
          return;
        }
        idx := idx + 1;
      }
      status := Ok;
    }

    /** One pass of that loop: empty and remove the session's directory,
        then `_delete_session`. */
    method DeleteVictim(victim: string) returns (status: Outcome)
      modifies this
      ensures (State(), status) == DeleteOne(old(State()), victim)
    {
      ghost var before := State();
      DeleteSessionFiles(victim, Images);
      DeleteSessionFiles(victim, Metadata);
      disk := disk - {victim};
      assert disk == before.disk - {victim};
      status := DeleteSession(victim);
    }

    /** `_delete_session_files(<session>/<which>)`: remove every file of one
        sub-directory of a session, one at a time; nothing when the session has
        no directory. */
    method DeleteSessionFiles(session: string, which: SubDir)
      modifies this
      ensures session in old(disk) ==> disk == old(disk)[session := Emptied(old(disk)[session], which)]
      ensures session !in old(disk) ==> disk == old(disk)
      ensures sessions == old(sessions) && currentSession == old(currentSession) && published == old(published)
    {
      if session !in disk {
        return;
      }
      ghost var dir0 := disk[session];
      var todo := FileNames(disk[session], which);
      while todo != {}
        invariant session in disk
        invariant disk == old(disk)[session := disk[session]]
        invariant FileNames(disk[session], which) == todo
        invariant Emptied(disk[session], which) == Emptied(dir0, which)
        invariant sessions == old(sessions) && currentSession == old(currentSession) && published == old(published)
        decreases |todo|
      {
        var name :| name in todo;
        disk := disk[session := RemoveFile(disk[session], which, name)];
        todo := todo - {name};
      }
      EmptiedWhenNoFiles(disk[session], which);
    }

    /** `_get_detections_metadata_for_session(session)`: parse the session's
        metadata files in file-name order, skipping those that do not parse;
        FileNotFoundError when the session has no directory. */
    method GetDetectionsMetadataForSession(session: string) returns (r: Result<seq<DetectionMetadata>>)
      ensures session in disk ==> r == Success(Parsed(disk[session]))
      ensures session !in disk ==> r == Failure(FileNotFoundError)
    {
      if session !in disk {
        return Failure(FileNotFoundError);
      }
      var files := disk[session].metadata;
      var names := Order.SortNames(files.Keys);
      assert forall k :: 0 <= k < |names| ==> names[k] in files;
      var out: seq<DetectionMetadata> := [];
      var i := 0;
      while i < |names|
        invariant 0 <= i <= |names|
        invariant out == ParseInOrder(files, names[..i])
      {
        ParseStep(files, names, i);
        var parsed := ParseRecord(files[names[i]]);
        if parsed.Some? {
          out := out + [parsed.value];
        }
        i := i + 1;
      }
      assert names[..i] == names;
      r := Success(out);
    }
  }

  /** Replaying one more listed name is one more `ReplayOne`. */
  lemma ReplaySnoc(s: Snapshot, names: seq<string>, i: nat)
    requires i < |names|
    requires forall k :: 0 <= k < |names| ==> names[k] in s.disk
    ensures Replay(s, names[..i + 1]) == ReplayOne(Replay(s, names[..i]), names[i])
  {
    assert names[..i + 1][..i] == names[..i];
  }

  /** Storing the next record extends the replay by one. */
  lemma InitStep(sessions: map<string, Index>, session: string, records: seq<DetectionMetadata>, j: nat, base: Index)
    requires session in sessions && j < |records|
    requires sessions[session] == InsertAll(base, records[..j])
    ensures StoreIfIndexed(sessions, session, records[j]) == sessions[session := InsertAll(base, records[..j + 1])]
  {
    assert records[..j + 1][..j] == records[..j];
  }

  lemma ParseStep(files: map<string, MetadataFile>, names: seq<string>, i: nat)
    requires i < |names|
    requires forall k :: 0 <= k < |names| ==> names[k] in files
    ensures ParseInOrder(files, names[..i + 1]) ==
      ParseInOrder(files, names[..i]) + (match ParseRecord(files[names[i]]) case Some(m) => [m] case None => [])
  {
    assert names[..i + 1][..i] == names[..i];
  }

  lemma EmptiedWhenNoFiles(dir: SessionDir, which: SubDir)
    requires FileNames(dir, which) == {}
    ensures dir == Emptied(dir, which)
  {
    match which
    case Images => assert dir.images == map[];
    case Metadata => assert dir.metadata == map[];
  }
}
