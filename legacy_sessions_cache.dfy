/** The older revision of the session cache
    (`trap.sessions_cache.sessions_cache.SessionsCache`), which nothing imports.
    It keeps the same index and disk as the current revision; `init`,
    `_list_sessions`, `_new_session`, `_delete_session`, `_init_detection`,
    `_get_detection`, `_set_detection`, `_delete_session_files`,
    `_get_detections_metadata_for_session` and `_get_image_data` are the same
    code, so this class works on a `Sessions.SessionsCache` holding that state
    and models only what differs:
    - a new track of an indexed session is stored, and then the send fails:
      `get_channel` returns a `Channel`, which has no `asend`, so AttributeError
      is raised and nothing is sent; an unindexed session is skipped instead
      of raising KeyError;
    - a known track is left exactly as stored (every assignment in that branch
      assigns a field to itself), re-stored under the current session, and
      written into the current session's directory;
    - the detail query keeps insertion order;
    - the sweep reads an attribute the class never sets. */
module LegacySessions {
  import opened Records
  import opened CacheCore
  import Order
  import Sessions

  /** The directory the known-track branch writes into:
      `f"{root}/{self.current_session}"`, which is `<root>/None` when no
      session is current. */
  function CurrentDirName(current: Option<string>): (r: string)
    ensures current.Some? ==> r == current.value
    ensures current.None? ==> r == "None"
  {
    match current
    case Some(c) => c
    case None => "None"
  }

  /** `detection(metadata, image)` of this revision. `encoded` is what
      reshaping `image` to the stored record's height x width x 3 and encoding
      it with `cv2.imwrite` produces, None when either raises (the exception
      is caught). */
  ghost function OnDetection(s: Snapshot, m: DetectionMetadata, image: Bytes, encoded: Option<Bytes>): (Snapshot, Outcome)
  {
    match GetDetection(s.sessions, m.session, m.detection)
    case None => OnNewTrack(s, m, image)
    case Some(stored) => OnKnownTrack(s, stored, encoded)
  }

  /** Both files into `m.session`'s directory (FileNotFoundError, with
      nothing changed, when it is missing), then `_new_detection`, which only
      acts when the session is indexed: it stores the record and then fails on
      `Channel.asend` with AttributeError before anything is sent. */
  ghost function OnNewTrack(s: Snapshot, m: DetectionMetadata, image: Bytes): (Snapshot, Outcome)
  {
    var session := m.session;
    if session !in s.disk then (s, Failed(FileNotFoundError))
    else
      var s1 := s.(disk := s.disk[session := WriteImage(WriteMetadata(s.disk[session], m), m.detection, image)]);
      if session !in s1.sessions then (s1, Ok)
      else
        var ix := Put(s1.sessions[session], m);
        (s1.(sessions := s1.sessions[session := ix]), Failed(AttributeError))
  }

  /** The stored record, unchanged, is re-stored under the current session;
      its metadata file is rewritten in the current session's directory
      (FileNotFoundError when that is missing) and, when encoding succeeded,
      its image too. */
  ghost function OnKnownTrack(s: Snapshot, stored: DetectionMetadata, encoded: Option<Bytes>): (Snapshot, Outcome)
  {
    var s1 := s.(sessions := StoreUnder(s.sessions, s.current, stored));
    var dir := CurrentDirName(s.current);
    if dir !in s1.disk then (s1, Failed(FileNotFoundError))
    else
      var s2 := s1.(disk := s1.disk[dir := WriteMetadata(s1.disk[dir], stored)]);
      match encoded
      case None => (s2, Ok)
      case Some(jpeg) => (s2.(disk := s2.disk[dir := WriteImage(s2.disk[dir], stored.detection, jpeg)]), Ok)
  }

  /** `_get_detections_for_session(session)` of this revision: the session's
      records in insertion order, each with its image. */
  ghost function DetailQuery(sessions: map<string, Index>, disk: map<string, SessionDir>, session: string): (r: Result<seq<(DetectionMetadata, Bytes)>>)
  {
    if session !in sessions then Failure(AttributeError)
    else if !ImagesOnDisk(sessions[session], disk, session) then Failure(AssertionError)
    else Success(WithImages(sessions[session], disk, session))
  }

  /** `session(state)` as written: the directories and the empty dict are
      made, then `_clean_up_sessions` fails at its first line on
      `self.settings_manager`, which this class never sets. */
  ghost function OpenSessionAsWritten(s: Snapshot, state: bool, session: string): (Snapshot, Outcome)
  {
    if !state then (s, Ok)
    else
      var s1 := s.(current := Some(session));
      if session in s1.disk then (s1, Failed(FileExistsError))
      else (Created(s1, session), Failed(AttributeError))
  }

  /** As written, opening a session never sweeps: once `cap` or more
      directories exist, every opened session leaves one directory more than
      the retention limit, and the open reports AttributeError. */
  lemma OpenSessionAsWrittenNeverSweeps(s: Snapshot, session: string, cap: int)
    requires session !in s.disk
    requires 0 <= cap <= |s.disk|
    ensures var (r, o) := OpenSessionAsWritten(s, true, session);
      && o == Failed(AttributeError)
      && r.disk.Keys == s.disk.Keys + {session}
      && |r.disk| == |s.disk| + 1 > cap
  {
    var r := OpenSessionAsWritten(s, true, session).0;
    assert r.disk.Keys == s.disk.Keys + {session};
  }

  /** Storing a record in a dict that already holds exactly it changes nothing. */
  lemma PutExisting(ix: Index, m: DetectionMetadata)
    requires Lookup(ix, m.detection) == Some(m)
    ensures Put(ix, m) == ix
  {
    var k := Position(ix, m.detection).value;
    assert ix[k := m] == ix;
  }

  /** A new track of an indexed session: both files are written into its
      directory and the record is appended to its dict; then the first send
      raises AttributeError, so nothing is sent. */
  lemma NewTrackEffects(s: Snapshot, m: DetectionMetadata, image: Bytes)
    requires Coherent(s)
    requires m.session in s.sessions
    requires GetDetection(s.sessions, m.session, m.detection).None?
    ensures var (r, o) := OnDetection(s, m, image, None);
      && o == Failed(AttributeError)
      && m.session in r.disk
      && r.disk[m.session].metadata == s.disk[m.session].metadata[MetadataFileName(m.detection) := Json(m)]
      && r.disk[m.session].images == s.disk[m.session].images[ImageFileName(m.detection) := image]
      && r.disk.Keys == s.disk.Keys
      && r.sessions == s.sessions[m.session := s.sessions[m.session] + [m]]
      && r.published == s.published
      && r.current == s.current
      && Coherent(r)
  {
  }

  /** A new track of a session with a directory but no dict: both files are
      written and the detection succeeds, with no index change and no send;
      without a directory it fails with FileNotFoundError and changes nothing. */
  lemma NewTrackUnindexed(s: Snapshot, m: DetectionMetadata, image: Bytes, encoded: Option<Bytes>)
    requires m.session !in s.sessions
    ensures m.session in s.disk ==>
      OnDetection(s, m, image, encoded) ==
        (s.(disk := s.disk[m.session := WriteImage(WriteMetadata(s.disk[m.session], m), m.detection, image)]), Ok)
    ensures m.session !in s.disk ==> OnDetection(s, m, image, encoded) == (s, Failed(FileNotFoundError))
  {
  }

  /** On a new track of an indexed session the two revisions agree on the
      disk, the index and the current session; the current revision succeeds
      and publishes the record and the count, while this one raises
      AttributeError having sent nothing. */
  lemma NewTrackAsCurrentRevision(s: Snapshot, m: DetectionMetadata, image: Bytes)
    requires m.session in s.disk && m.session in s.sessions
    requires GetDetection(s.sessions, m.session, m.detection).None?
    ensures var (r, o) := OnDetection(s, m, image, None);
      var (q, p) := Sessions.OnDetection(s, m, image);
      && o == Failed(AttributeError) && p == Ok
      && r.disk == q.disk && r.sessions == q.sessions && r.current == q.current
      && r.published == s.published
      && q.published == s.published + [DetectionMsg(m, image), SessionDetailsMsg(m.session, |q.sessions[m.session]|)]
  {
  }

  /** A repeated detection of a stored track changes no record: the stored
      one keeps every field (the incoming score, size and time are ignored),
      its own session's dict is unchanged, and the current session's dict,
      when indexed, now holds the stored record for the track. Nothing is
      sent. */
  lemma KnownTrackKeepsRecord(s: Snapshot, m: DetectionMetadata, image: Bytes, encoded: Option<Bytes>, stored: DetectionMetadata)
    requires Coherent(s)
    requires GetDetection(s.sessions, m.session, m.detection) == Some(stored)
    ensures var r := OnDetection(s, m, image, encoded).0;
      && r.sessions.Keys == s.sessions.Keys
      && (s.current != Some(m.session) ==> r.sessions[m.session] == s.sessions[m.session])
      && (s.current == Some(m.session) ==> r.sessions == s.sessions)
      && GetDetection(r.sessions, m.session, m.detection) == Some(stored)
      && (s.current.Some? && s.current.value in s.sessions ==>
            GetDetection(r.sessions, s.current.value, m.detection) == Some(stored))
      && (forall k :: k in s.sessions && Some(k) != s.current ==> r.sessions[k] == s.sessions[k])
      && r.published == s.published
      && r.current == s.current
  {
    var ix := s.sessions[m.session];
    assert Lookup(ix, m.detection) == Some(stored);
    if s.current == Some(m.session) {
      PutExisting(ix, stored);
      assert StoreIfIndexed(s.sessions, m.session, stored) == s.sessions;
    }
  }

  /** A repeated detection rewrites files only in the current session's
      directory: the stored record as metadata, and the encoded image when
      there is one; FileNotFoundError when there is no such directory. */
  lemma KnownTrackFiles(s: Snapshot, m: DetectionMetadata, image: Bytes, encoded: Option<Bytes>, stored: DetectionMetadata)
    requires GetDetection(s.sessions, m.session, m.detection) == Some(stored)
    ensures var dir := CurrentDirName(s.current);
      var (r, o) := OnDetection(s, m, image, encoded);
      && r.disk.Keys == s.disk.Keys
      && (dir !in s.disk ==> o == Failed(FileNotFoundError) && r.disk == s.disk)
      && (dir in s.disk ==>
            && o == Ok
            && r.disk[dir].metadata == s.disk[dir].metadata[MetadataFileName(m.detection) := Json(stored)]
            && r.disk[dir].images ==
                 (if encoded.Some? then s.disk[dir].images[ImageFileName(m.detection) := encoded.value]
                  else s.disk[dir].images))
      && (forall k :: k in s.disk && k != dir ==> r.disk[k] == s.disk[k])
  {
  }

  /** Every detection keeps the index coherent with the disk. */
  lemma DetectionKeepsCoherent(s: Snapshot, m: DetectionMetadata, image: Bytes, encoded: Option<Bytes>)
    requires Coherent(s)
    ensures Coherent(OnDetection(s, m, image, encoded).0)
    ensures Indexed(s) ==> Indexed(OnDetection(s, m, image, encoded).0)
  {
    match GetDetection(s.sessions, m.session, m.detection)
    case None =>
    case Some(stored) =>
      if s.current.Some? {
        StorePreservesUniqueness(s.sessions, s.current.value, stored);
      }
  }

  /** This revision's detail query answers in insertion order: the same
      records, with the same images, as the current revision's, in the
      opposite order; both fail alike. */
  lemma DetailQueryOldestFirst(sessions: map<string, Index>, disk: map<string, SessionDir>, session: string)
    ensures var r := DetailQuery(sessions, disk, session);
      var q := Sessions.DetailQuery(sessions, disk, session);
      && (r.Failure? <==> q.Failure?)
      && (r.Failure? ==> r == q)
      && (r.Success? ==>
            && |r.value| == |q.value| == |sessions[session]|
            && (forall i :: 0 <= i < |r.value| ==> r.value[i].0 == sessions[session][i])
            && (forall i :: 0 <= i < |r.value| ==> r.value[i] == q.value[|q.value| - 1 - i]))
  {
    if session in sessions {
      var ix := sessions[session];
      Sessions.ReverseImagesOnDisk(ix, disk, session);
      if ImagesOnDisk(ix, disk, session) && session in disk {
        var r := WithImages(ix, disk, session);
        var q := WithImages(Reverse(ix), disk, session);
        forall i | 0 <= i < |r|
          ensures r[i] == q[|q| - 1 - i]
        {
          assert Reverse(ix)[|q| - 1 - i] == ix[i];
        }
      }
    }
  }

  /** The older revision, over the state of a `Sessions.SessionsCache`. */
  class SessionsCache {
    /** The index, current session, disk and sent messages. */
    const cache: Sessions.SessionsCache

    constructor(cache: Sessions.SessionsCache)
      ensures this.cache == cache
    {
      this.cache := cache;
    }

    /** `detection(metadata, image)`. */
    method Detection(m: DetectionMetadata, image: Bytes, encoded: Option<Bytes>) returns (status: Outcome)
      modifies cache
      ensures (cache.State(), status) == OnDetection(old(cache.State()), m, image, encoded)
    {
      var stored := GetDetection(cache.sessions, m.session, m.detection);
      if stored.None? {
        status := DetectNewTrack(m, image);
      } else {
        status := DetectKnownTrack(stored.value, encoded);
      }
    }

    method DetectNewTrack(m: DetectionMetadata, image: Bytes) returns (status: Outcome)
      modifies cache
      ensures (cache.State(), status) == OnNewTrack(old(cache.State()), m, image)
    {
      var session := m.session;
      if session !in cache.disk {
        return Failed(FileNotFoundError);
      }
      cache.disk := cache.disk[session := WriteImage(WriteMetadata(cache.disk[session], m), m.detection, image)];
      status := NewDetection(session, m, image);
    }

    /** The known-track branch: the self-assignments change nothing. */
    method DetectKnownTrack(stored: DetectionMetadata, encoded: Option<Bytes>) returns (status: Outcome)
      modifies cache
      ensures (cache.State(), status) == OnKnownTrack(old(cache.State()), stored, encoded)
    {
      var dir := CurrentDirName(cache.currentSession);
      cache.SetDetection(cache.currentSession, stored);
      if dir !in cache.disk {
        return Failed(FileNotFoundError);
      }
      cache.disk := cache.disk[dir := WriteMetadata(cache.disk[dir], stored)];
      if encoded.Some? {
        cache.disk := cache.disk[dir := WriteImage(cache.disk[dir], stored.detection, encoded.value)];
      }
      status := Ok;
    }

    /** `_new_detection(session, m, image)`: with `sessions.get`, an unindexed
        session is skipped; otherwise the record is stored, and then
        `get_channel(...).asend` raises AttributeError, since a `Channel`
        has no `asend`, so neither `(m, image)` nor the count is sent. */
    method NewDetection(session: string, m: DetectionMetadata, image: Bytes) returns (status: Outcome)
      modifies cache
      ensures session in old(cache.sessions) ==>
        && cache.sessions == old(cache.sessions)[session := Put(old(cache.sessions)[session], m)]
        && status == Failed(AttributeError)
      ensures session !in old(cache.sessions) ==>
        cache.sessions == old(cache.sessions) && status == Ok
      ensures cache.published == old(cache.published)
      ensures cache.disk == old(cache.disk) && cache.currentSession == old(cache.currentSession)
    {
      status := Ok;
      if session in cache.sessions {
        var ix := Put(cache.sessions[session], m);
        cache.sessions := cache.sessions[session := ix];
        status := Failed(AttributeError);
      }
    }

    /** `handle_message` of this revision, given the decoded session id. */
    method HandleMessage(identifier: string, session: string) returns (status: Outcome)
      modifies cache
      ensures cache.sessions == old(cache.sessions) && cache.disk == old(cache.disk)
      ensures cache.currentSession == old(cache.currentSession)
      ensures identifier == "sessions" ==>
        status == Ok && cache.published == old(cache.published) + CatalogueEvents(Catalogue(old(cache.sessions)))
      ensures identifier == "session.detections" ==>
        match DetailQuery(old(cache.sessions), old(cache.disk), session)
        case Success(d) => status == Ok && cache.published == old(cache.published) + DetailEvents(d)
        case Failure(f) => status == Failed(f) && cache.published == old(cache.published)
      ensures identifier != "sessions" && identifier != "session.detections" ==>
        status == Ok && cache.published == old(cache.published)
    {
      status := Ok;
      if identifier == "sessions" {
        var catalogue := cache.ListSessions();
        cache.PublishCatalogue(catalogue);
      } else if identifier == "session.detections" {
        var details := GetDetectionsForSession(session);
        if details.Failure? {
          return Failed(details.fault);
        }
        cache.PublishDetails(details.value);
      }
    }

    /** `_get_detections_for_session(session)`: the records in insertion
        order, each with its image. */
    method GetDetectionsForSession(session: string) returns (r: Result<seq<(DetectionMetadata, Bytes)>>)
      ensures r == DetailQuery(cache.sessions, cache.disk, session)
    {
      if session !in cache.sessions {
        return Failure(AttributeError);
      }
      r := cache.PairWithImages(session, cache.sessions[session]);
    }
  }
}
