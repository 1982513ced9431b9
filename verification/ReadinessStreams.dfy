/**
 The readiness check over several log paths. Paths may be names of one log object: each object is
 read once, from the furthest boundary captured for any of its names, and must stay the same object.
 */
module ReadinessStreams {
  import opened Bytes
  import opened ReadinessScanner

  type Path = string

  datatype Identity = Identity(device: nat, inode: nat)

  /** What looking a path up finds. */
  datatype Node = Missing | Irregular | Unreadable | Regular(id: Identity)

  /** Where reading is to begin, and the object it was captured for if it existed then. */
  datatype Boundary = Boundary(offset: nat, identity: Option<Identity>)

  datatype Stream = Stream(offset: nat, state: State, initialized: bool)

  type Boundaries = map<Path, Boundary>
  type Streams = map<Identity, Stream>
  type Logs = map<Identity, seq<byte>>
  type Starts = map<Identity, nat>

  const FRESH: State := State([], false, NOTHING)

  /** The first occurrence of every path. */
  function Distinct(paths: seq<Path>): (r: seq<Path>)
    ensures forall p :: p in r <==> p in paths
    ensures forall i, j :: 0 <= i < j < |r| ==> r[i] != r[j]
  {
    if paths == [] then []
    else
      var init, last := Distinct(paths[..|paths| - 1]), paths[|paths| - 1];
      assert paths == paths[..|paths| - 1] + [last];
      if last in init then init else init + [last]
  }

  // ---- boundaries ----

  /** The furthest boundary among the opened names of an object. */
  function Furthest(paths: seq<Path>, boundaries: Boundaries, bound: set<Path>, id: Identity): nat {
    if paths == [] then 0
    else
      var p, rest := paths[0], Furthest(paths[1..], boundaries, bound, id);
      if Names(boundaries, bound, p, id) then Max(boundaries[p].offset, rest) else rest
  }

  /** An opened name of an object. */
  predicate Names(boundaries: Boundaries, bound: set<Path>, path: Path, id: Identity) {
    path in bound && path in boundaries && boundaries[path].identity == Some(id)
  }

  /** It is the boundary of an opened name, or 0 without one, and no opened name has a further one. */
  lemma {:induction false} FurthestSpec(paths: seq<Path>, boundaries: Boundaries, bound: set<Path>, id: Identity)
    ensures forall p :: p in paths && Names(boundaries, bound, p, id) ==>
              boundaries[p].offset <= Furthest(paths, boundaries, bound, id)
    ensures Furthest(paths, boundaries, bound, id) == 0
         || (exists p :: p in paths && Names(boundaries, bound, p, id)
                         && boundaries[p].offset == Furthest(paths, boundaries, bound, id))
  {
    if paths != [] {
      FurthestSpec(paths[1..], boundaries, bound, id);
      assert paths == [paths[0]] + paths[1..];
      assert paths[0] in paths;
    }
  }

  /** Opening one more name of an object moves its boundary on, and no other's. */
  lemma {:induction false} FurthestOpens(paths: seq<Path>, boundaries: Boundaries, bound: set<Path>, path: Path,
                                         id: Identity, other: Identity)
    requires path in boundaries && (boundaries[path].identity.None? || boundaries[path].identity == Some(id))
    requires path in bound ==> boundaries[path].identity == Some(id)
    ensures var after := boundaries[path := boundaries[path].(identity := Some(id))];
            Furthest(paths, after, bound + {path}, other) ==
            if other == id && path in paths then Max(Furthest(paths, boundaries, bound, other), boundaries[path].offset)
            else Furthest(paths, boundaries, bound, other)
  {
    if paths != [] {
      FurthestOpens(paths[1..], boundaries, bound, path, id, other);
      assert paths == [paths[0]] + paths[1..];
    }
  }

  /** Why a path makes the check fail. */
  predicate PathFails(boundary: Boundary, node: Node) {
    || node.Unreadable?
    || (!node.Regular? && boundary.identity.Some?)
    || (node.Regular? && boundary.identity.Some? && boundary.identity.value != node.id)
  }

  // ---- readiness ----

  /** When the logs read so far, all together, show that the service is ready. */
  ghost predicate LogsReady(mode: Mode, pid: nat, seen: Logs, from: Starts, ids: set<Identity>)
    requires ids <= seen.Keys && ids <= from.Keys
  {
    && (exists id :: id in ids && LogStarted(mode, pid, seen[id], from[id]))
    && (if mode.Cloud? then exists id :: id in ids && LogReconciled(mode, pid, seen[id], from[id])
        else forall poll :: poll in POLLS ==> exists id :: id in ids && LogPolled(mode, pid, seen[id], from[id], poll))
  }

  ghost predicate StreamValid(mode: Mode, pid: Option<nat>, stream: Stream, seen: seq<byte>, from: nat) {
    && pid.Some? && stream.offset == |seen| && from <= |seen|
    && Reflects(mode, pid.value, seen, from, stream.state)
  }

  /** Paths are distinct, have a boundary, and once opened an object with a stream. */
  ghost predicate NamesValid(paths: seq<Path>, boundaries: Boundaries, bound: set<Path>, ids: set<Identity>) {
    && (forall p :: p in paths ==> p in boundaries)
    && (forall i, j :: 0 <= i < j < |paths| ==> paths[i] != paths[j])
    && (forall p :: p in bound ==>
          p in boundaries && boundaries[p].identity.Some? && boundaries[p].identity.value in ids)
  }

  /** Streams not read yet wait at the furthest boundary of their names. */
  ghost predicate Waiting(paths: seq<Path>, boundaries: Boundaries, bound: set<Path>, streams: Streams) {
    forall id :: id in streams && !streams[id].initialized ==>
      streams[id] == Stream(Furthest(paths, boundaries, bound, id), FRESH, false)
  }

  ghost predicate Read(mode: Mode, pid: Option<nat>, streams: Streams, seen: Logs, from: Starts) {
    forall id :: id in streams && streams[id].initialized ==>
      id in seen && id in from && StreamValid(mode, pid, streams[id], seen[id], from[id])
  }

  /** A name of an object was opened: its stream is there, no nearer than the name's boundary. */
  function OpenStream(streams: Streams, id: Identity, offset: nat): Streams {
    if id !in streams then streams[id := Stream(offset, FRESH, false)]
    else if streams[id].initialized then streams
    else streams[id := streams[id].(offset := Max(streams[id].offset, offset))]
  }

  /** Nothing but waiting streams was added or moved. */
  ghost predicate OnlyOpens(before: Streams, after: Streams) {
    && before.Keys <= after.Keys
    && (forall id :: id in after && after[id].initialized ==> id in before)
    && (forall id :: id in before && (before[id].initialized || after[id].initialized) ==> after[id] == before[id])
  }

  lemma OpenKeeps(paths: seq<Path>, boundaries: Boundaries, bound: set<Path>, streams: Streams, path: Path,
                  id: Identity)
    requires NamesValid(paths, boundaries, bound, streams.Keys) && Waiting(paths, boundaries, bound, streams)
    requires path in paths && (boundaries[path].identity.None? || boundaries[path].identity == Some(id))
    ensures var after := boundaries[path := boundaries[path].(identity := Some(id))];
            var opens := OpenStream(streams, id, boundaries[path].offset);
            && NamesValid(paths, after, bound + {path}, opens.Keys) && Waiting(paths, after, bound + {path}, opens)
            && OnlyOpens(streams, opens)
  {
    hide Furthest;
    forall other: Identity { FurthestOpens(paths, boundaries, bound, path, id, other); }
    if id !in streams { NotOpened(paths, boundaries, bound, streams.Keys, id); }
  }

  lemma OpenReads(mode: Mode, pid: Option<nat>, streams: Streams, seen: Logs, from: Starts, id: Identity, offset: nat)
    requires Read(mode, pid, streams, seen, from)
    ensures Read(mode, pid, OpenStream(streams, id, offset), seen, from)
  {
    hide StreamValid;
  }

  lemma NotOpened(paths: seq<Path>, boundaries: Boundaries, bound: set<Path>, ids: set<Identity>, id: Identity)
    requires NamesValid(paths, boundaries, bound, ids) && id !in ids
    ensures Furthest(paths, boundaries, bound, id) == 0
  {
    FurthestSpec(paths, boundaries, bound, id);
  }

  class LogScanner {
    const mode: Mode
    const paths: seq<Path>
    var pid: Option<nat>
    var boundaries: Boundaries
    var streams: Streams
    /** The names opened so far; of every stream, the bytes read and where reading began. */
    ghost var bound: set<Path>
    ghost var seen: Logs
    ghost var from: Starts

    constructor (mode: Mode, paths: seq<Path>, offsets: Boundaries)
      ensures Valid() && pid == None && streams == map[] && bound == {}
      ensures this.mode == mode && this.paths == Distinct(paths)
      ensures forall p :: p in paths ==>
                p in boundaries && boundaries[p] == if p in offsets then offsets[p] else Boundary(0, None)
    {
      this.mode, this.paths, pid, streams := mode, Distinct(paths), None, map[];
      boundaries := map p | p in paths :: if p in offsets then offsets[p] else Boundary(0, None);
      bound, seen, from := {}, map[], map[];
    }

    ghost predicate Valid()
      reads this
    {
      && NamesValid(paths, boundaries, bound, streams.Keys)
      && Waiting(paths, boundaries, bound, streams)
      && Read(mode, pid, streams, seen, from)
    }

    method OpenPath(path: Path, node: Node) returns (ok: bool)
      requires Valid() && path in paths
      modifies this`boundaries, this`streams, this`bound
      ensures Valid() && ok == !PathFails(old(boundaries)[path], node)
      ensures OnlyOpens(old(streams), streams)
      ensures ok && node.Regular? ==> node.id in streams && Names(boundaries, bound, path, node.id)
      ensures forall p :: p in old(boundaries) && p != path ==> p in boundaries && boundaries[p] == old(boundaries)[p]
      ensures forall p, id :: Names(old(boundaries), old(bound), p, id) ==> Names(boundaries, bound, p, id)
    {
      hide Waiting, Read, OpenStream;
      var boundary := boundaries[path];
      match node
      case Unreadable => return false;
      case Missing => return boundary.identity.None?;
      case Irregular => return boundary.identity.None?;
      case Regular(id) =>
        if boundary.identity.Some? && boundary.identity.value != id { return false; }
        OpenKeeps(paths, boundaries, bound, streams, path, id);
        OpenReads(mode, pid, streams, seen, from, id, boundary.offset);
        boundaries := boundaries[path := boundary.(identity := Some(id))];
        bound := bound + {path};
        streams := OpenStream(streams, id, boundary.offset);
        return true;
    }

    method OpenPaths(view: Path -> Node) returns (ok: bool)
      requires Valid()
      modifies this`boundaries, this`streams, this`bound
      ensures Valid() && OnlyOpens(old(streams), streams)
      ensures ok <==> forall p :: p in paths ==> !PathFails(old(boundaries)[p], view(p))
      ensures ok ==> forall p :: p in paths && view(p).Regular? ==>
                view(p).id in streams && Names(boundaries, bound, p, view(p).id)
    {
      hide PathFails, Names, Waiting, Read;
      for k := 0 to |paths|
        invariant Valid() && OnlyOpens(old(streams), streams)
        invariant forall j :: 0 <= j < k ==> !PathFails(old(boundaries)[paths[j]], view(paths[j]))
        invariant forall j :: 0 <= j < k && view(paths[j]).Regular? ==>
                    view(paths[j]).id in streams && Names(boundaries, bound, paths[j], view(paths[j]).id)
        invariant forall j :: k <= j < |paths| ==> boundaries[paths[j]] == old(boundaries)[paths[j]]
      {
        ghost var was := streams;
        var opens := OpenPath(paths[k], view(paths[k]));
        OpensTransitive(old(streams), was, streams);
        if !opens {
          assert paths[k] in paths;
          return false;
        }
      }
      return true;
    }

    /** One chunk of one log object. */
    method ReadStream(id: Identity, content: seq<byte>) returns (ok: bool)
      requires Valid() && id in streams && pid.Some?
      requires streams[id].initialized && streams[id].offset <= |content| ==> content[..streams[id].offset] == seen[id]
      modifies this`streams, this`seen, this`from
      ensures Valid() && ok == (old(streams)[id].offset <= |content|)
      ensures !ok ==> streams == old(streams) && seen == old(seen) && from == old(from)
      ensures id in streams
      ensures ok ==> ReadOn(old(streams)[id], old(seen), old(from), id, content, streams[id], seen, from)
      ensures ok ==> streams == old(streams)[id := streams[id]]
    {
      hide Reflects, NamesValid, Feed, AtBoundary, Furthest, Waiting;
      var stream := streams[id];
      if |content| < stream.offset { return false; }
      ghost var boundary := stream.offset;
      if !stream.initialized {
        var overflow := stream.offset != 0 && content[stream.offset - 1] != LF;
        stream := Stream(stream.offset, State([], overflow, NOTHING), true);
        Opened(mode, pid.value, content[..stream.offset], overflow);
      } else {
        boundary := from[id];
      }
      InBoundsState(mode, pid.value, content[..stream.offset], boundary, stream.state);
      var end := Min(stream.offset + CHUNK_BYTES, |content|);
      var data := content[stream.offset..end];
      var after := ReadFragments(mode, pid.value, stream.state, data);
      FeedReflects(mode, pid.value, content[..stream.offset], boundary, stream.state, data);
      TakeMore(content, stream.offset, end);
      ReadKeeps(paths, boundaries, bound, streams, id, Stream(end, after, true));
      streams := streams[id := Stream(end, after, true)];
      seen, from := seen[id := content[..end]], from[id := boundary];
      return true;
    }

    /** One chunk of every log object that a path names, each object once. */
    method ReadAll(view: Path -> Node, contents: Logs) returns (ok: bool)
      requires Valid() && pid.Some?
      requires forall p :: p in paths && view(p).Regular? ==> view(p).id in streams && view(p).id in contents
      requires Appended(streams, seen, contents)
      modifies this`streams, this`seen, this`from
      ensures Valid() && streams.Keys == old(streams.Keys)
      ensures ok <==> forall p :: p in paths && view(p).Regular? ==>
                streams[view(p).id].offset <= |contents[view(p).id]|
      ensures ok ==> forall p :: p in paths && view(p).Regular? ==>
                ReadChunk(old(streams)[view(p).id].offset, streams, seen, contents, view(p).id)
      ensures BoundariesKept(old(streams), old(from), streams, from)
    {
      hide NamesValid, Waiting, Read, ReadOn, Progress, ReadChunk;
      var scanned: set<Identity> := {};
      ReadHasStart(mode, pid, streams, seen, from);
      NoProgress(streams, seen, from, contents);
      for k := 0 to |paths|
        invariant Valid() && streams.Keys == old(streams.Keys) && pid == old(pid)
        invariant Progress(old(streams), old(seen), old(from), scanned, contents, streams, seen, from)
        invariant forall j :: 0 <= j < k && view(paths[j]).Regular? ==> view(paths[j]).id in scanned
      {
        assert paths[k] in paths;
        if view(paths[k]).Regular? && view(paths[k]).id !in scanned {
          var id := view(paths[k]).id;
          NotScanned(old(streams), old(seen), old(from), scanned, contents, streams, seen, from, id);
          ghost var streamsBefore, seenBefore, fromBefore := streams, seen, from;
          var fits := ReadStream(id, contents[id]);
          if !fits {
            assert !(streams[id].offset <= |contents[id]|);
            ScannedFits(old(streams), old(seen), old(from), scanned, contents, streams, seen, from);
            return false;
          }
          MoreProgress(old(streams), old(seen), old(from), scanned, contents, streamsBefore, seenBefore, fromBefore, id,
                       streams, seen, from);
          scanned := scanned + {id};
        }
      }
      ScannedFits(old(streams), old(seen), old(from), scanned, contents, streams, seen, from);
      return true;
    }

    /**
     One check of all paths. `later` and `sizes` are what looking the paths up again finds when all
     objects have been read. It fails exactly on an invalid or changed PID, on a path that cannot be
     read or is another object than before, on a log shorter than what was read of it, and on a path
     that changed meanwhile. Otherwise it tells whether the logs read so far, taken together, show
     that the service is ready.
     */
    method Scan(view: Path -> Node, contents: Logs, later: Path -> Node, sizes: Identity -> nat, expectedPid: int)
      returns (ready: Result<bool>)
      requires Valid()
      requires forall p :: p in paths && view(p).Regular? ==> view(p).id in contents
      requires Appended(streams, seen, contents)
      modifies this
      ensures Valid()
      ensures pid == if ValidPid(expectedPid) && old(pid).None? then Some(expectedPid) else old(pid)
      ensures ready.Err? <==>
              || !ValidPid(expectedPid) || (old(pid).Some? && old(pid).value != expectedPid)
              || (exists p :: p in paths && PathFails(old(boundaries)[p], view(p)))
              || (exists p :: p in paths && LogFails(view(p), contents, later(p), sizes, streams))
      ensures ready.Ok? ==>
                && pid == Some(expectedPid)
                && (forall p :: p in paths && view(p).Regular? ==>
                      var id := view(p).id;
                      ReadChunk(Begin(old(streams), paths, boundaries, bound, id), streams, seen, contents, id))
                && Initialized(streams) <= seen.Keys && Initialized(streams) <= from.Keys
                && (ready.value <==> LogsReady(mode, expectedPid, seen, from, Initialized(streams)))
      ensures StartsAtFurthest(old(streams), old(from), streams, from, paths, boundaries, bound)
    {
      hide NamesValid, Waiting, Read, PathFails, Names, LogsReady, LogFails, Furthest, Joined, Appended, Begin;
      hide ReadChunk, StartsAtFurthest, BoundariesKept, OnlyOpens;
      ghost var streams0, from0 := streams, from;
      OpensNothing(streams);
      NothingStarts(mode, pid, streams, streams, seen, from, paths, boundaries, bound);
      if !ValidPid(expectedPid) { return Err; }
      if pid.Some? && pid.value != expectedPid { return Err; }
      PidKept(mode, pid, Some(expectedPid), streams, seen, from);
      pid := Some(expectedPid);
      var opens := OpenPaths(view);
      NothingStarts(mode, pid, streams0, streams, seen, from, paths, boundaries, bound);
      if !opens { return Err; }
      OpensAppended(streams0, streams, seen, contents);
      ghost var streams1 := streams;
      ReadHasStart(mode, pid, streams, seen, from);
      var fits := ReadAll(view, contents);
      ReadBegins(streams0, streams1, paths, boundaries, bound);
      ReadStarts(streams0, from0, streams1, streams, from, paths, boundaries, bound);
      var same := false;
      if fits {
        same := Recheck(view, contents, later, sizes);
      } else {
        TooShort(view, paths, contents, later, sizes, streams);
      }
      if !same { return Err; }
      Answer(mode, expectedPid, streams, seen, from, paths, boundaries, bound);
      ready := Ok(Joined(mode, streams));
    }

    /** All opened paths still name their objects, which have not become shorter than what was read. */
    method Recheck(view: Path -> Node, contents: Logs, later: Path -> Node, sizes: Identity -> nat) returns (same: bool)
      ensures same <==> forall p :: p in paths ==> !LogFails(view(p), contents, later(p), sizes, streams)
    {
      hide LogFails;
      for k := 0 to |paths|
        invariant forall j :: 0 <= j < k ==> !LogFails(view(paths[j]), contents, later(paths[j]), sizes, streams)
      {
        assert paths[k] in paths;
        if LogFails(view(paths[k]), contents, later(paths[k]), sizes, streams) { return false; }
      }
      return true;
    }
  }

  lemma ReadKeeps(paths: seq<Path>, boundaries: Boundaries, bound: set<Path>, streams: Streams, id: Identity,
                  after: Stream)
    requires NamesValid(paths, boundaries, bound, streams.Keys) && Waiting(paths, boundaries, bound, streams)
    requires id in streams && after.initialized
    ensures var updated := streams[id := after];
            NamesValid(paths, boundaries, bound, updated.Keys) && Waiting(paths, boundaries, bound, updated)
  {
    hide Furthest;
  }

  lemma OpensTransitive(a: Streams, b: Streams, c: Streams)
    requires OnlyOpens(a, b) && OnlyOpens(b, c)
    ensures OnlyOpens(a, c)
  {
  }

  /** What reading one chunk of a log object changes: the bytes seen grow, the boundary stays. */
  ghost predicate ReadOn(before: Stream, seenBefore: Logs, fromBefore: Starts, id: Identity,
                         content: seq<byte>, after: Stream, seen: Logs, from: Starts)
  {
    && after.initialized && after.offset == Min(before.offset + CHUNK_BYTES, |content|)
    && seen == seenBefore[id := content[..after.offset]]
    && (if before.initialized then id in fromBefore && from == fromBefore[id := fromBefore[id]]
        else from == fromBefore[id := before.offset])
  }

  // ---- reading all objects ----

  /** The logs were only appended to since they were read. */
  ghost predicate Appended(streams: Streams, seen: Logs, contents: Logs) {
    forall id :: id in streams && streams[id].initialized && id in contents && streams[id].offset <= |contents[id]| ==>
      id in seen && contents[id][..streams[id].offset] == seen[id]
  }

  /** One chunk of the object was read from `begin`, and everything up to its end is what was seen. */
  ghost predicate ReadChunk(begin: nat, streams: Streams, seen: Logs, contents: Logs, id: Identity) {
    && id in streams && id in seen && id in contents && begin <= |contents[id]|
    && streams[id].initialized && streams[id].offset == Min(begin + CHUNK_BYTES, |contents[id]|)
    && seen[id] == contents[id][..streams[id].offset]
  }

  ghost predicate StartKept(streamsBefore: Streams, fromBefore: Starts, from: Starts, id: Identity) {
    && id in streamsBefore && id in from
    && (if streamsBefore[id].initialized then id in fromBefore && from[id] == fromBefore[id]
        else from[id] == streamsBefore[id].offset)
  }

  /** Reading began, or begins now, where the stream stood. */
  ghost predicate BoundariesKept(streamsBefore: Streams, fromBefore: Starts,
                                 streams: Streams, from: Starts)
  {
    forall id :: id in streams && streams[id].initialized ==>
      StartKept(streamsBefore, fromBefore, from, id)
  }

  /** The objects scanned so far are read, the others are as they were. */
  ghost predicate Progress(streams0: Streams, seen0: Logs, from0: Starts, scanned: set<Identity>,
                           contents: Logs, streams: Streams, seen: Logs,
                           from: Starts)
  {
    && scanned <= streams0.Keys == streams.Keys
    && (forall id :: id in streams && id !in scanned ==>
          && streams[id] == streams0[id]
          && (id in seen0 ==> id in seen && seen[id] == seen0[id])
          && (id in from0 ==> id in from && from[id] == from0[id]))
    && (forall id :: id in scanned ==>
          ReadChunk(streams0[id].offset, streams, seen, contents, id) && StartKept(streams0, from0, from, id))
    && (forall id :: id in streams0 && streams0[id].initialized ==> id in from0)
  }

  lemma NoProgress(streams: Streams, seen: Logs, from: Starts, contents: Logs)
    requires forall id :: id in streams && streams[id].initialized ==> id in from
    ensures Progress(streams, seen, from, {}, contents, streams, seen, from)
  {
  }

  lemma NotScanned(streams0: Streams, seen0: Logs, from0: Starts, scanned: set<Identity>,
                   contents: Logs, streams: Streams, seen: Logs,
                   from: Starts, id: Identity)
    requires Progress(streams0, seen0, from0, scanned, contents, streams, seen, from)
    requires id in streams && id !in scanned && Appended(streams0, seen0, contents) && id in contents
    ensures streams[id].initialized && streams[id].offset <= |contents[id]| ==>
              id in seen && contents[id][..streams[id].offset] == seen[id]
  {
  }

  lemma ScannedFits(streams0: Streams, seen0: Logs, from0: Starts, scanned: set<Identity>,
                    contents: Logs, streams: Streams, seen: Logs,
                    from: Starts)
    requires Progress(streams0, seen0, from0, scanned, contents, streams, seen, from)
    ensures forall id :: id in scanned ==>
              id in streams0 && ReadChunk(streams0[id].offset, streams, seen, contents, id)
              && streams[id].offset <= |contents[id]|
    ensures BoundariesKept(streams0, from0, streams, from)
  {
  }

  /** Reading one object leaves the others alone. */
  lemma OthersKept(streams: Streams, seen: Logs, from: Starts, id: Identity, content: seq<byte>,
                   streamsAfter: Streams, seenAfter: Logs, fromAfter: Starts)
    requires id in streams && id in streamsAfter && streamsAfter == streams[id := streamsAfter[id]]
    requires ReadOn(streams[id], seen, from, id, content, streamsAfter[id], seenAfter, fromAfter)
    ensures forall other :: other in streams && other != id ==> streamsAfter[other] == streams[other]
    ensures forall other :: other in seen && other != id ==> other in seenAfter && seenAfter[other] == seen[other]
    ensures forall other :: other in from && other != id ==> other in fromAfter && fromAfter[other] == from[other]
  {
  }

  lemma ObjectRead(streams0: Streams, from0: Starts, streams: Streams, seen: Logs, from: Starts, contents: Logs,
                   id: Identity, streamsAfter: Streams, seenAfter: Logs, fromAfter: Starts)
    requires id in streams && id in streams0 && id in contents && id in streamsAfter
    requires streams[id] == streams0[id] && streams[id].offset <= |contents[id]|
    requires streams[id].initialized ==> id in from0 && id in from && from[id] == from0[id]
    requires ReadOn(streams[id], seen, from, id, contents[id], streamsAfter[id], seenAfter, fromAfter)
    ensures ReadChunk(streams0[id].offset, streamsAfter, seenAfter, contents, id)
              && StartKept(streams0, from0, fromAfter, id)
  {
  }

  lemma StillRead(streams0: Streams, from0: Starts, streams: Streams, seen: Logs, from: Starts, contents: Logs,
                  other: Identity, streamsAfter: Streams, seenAfter: Logs, fromAfter: Starts)
    requires other in streams0 && ReadChunk(streams0[other].offset, streams, seen, contents, other)
    requires StartKept(streams0, from0, from, other)
    requires other in streamsAfter && streamsAfter[other] == streams[other]
    requires other in seen ==> other in seenAfter && seenAfter[other] == seen[other]
    requires other in from ==> other in fromAfter && fromAfter[other] == from[other]
    ensures ReadChunk(streams0[other].offset, streamsAfter, seenAfter, contents, other)
    ensures StartKept(streams0, from0, fromAfter, other)
  {
  }

  lemma MoreProgress(streams0: Streams, seen0: Logs, from0: Starts, scanned: set<Identity>, contents: Logs,
                     streams: Streams, seen: Logs, from: Starts, id: Identity,
                     streamsAfter: Streams, seenAfter: Logs, fromAfter: Starts)
    requires Progress(streams0, seen0, from0, scanned, contents, streams, seen, from)
    requires id in streams && id !in scanned && id in contents && id in streamsAfter
              && streams[id].offset <= |contents[id]|
    requires streamsAfter == streams[id := streamsAfter[id]]
    requires ReadOn(streams[id], seen, from, id, contents[id], streamsAfter[id], seenAfter, fromAfter)
    ensures Progress(streams0, seen0, from0, scanned + {id}, contents, streamsAfter, seenAfter, fromAfter)
  {
    hide ReadOn, ReadChunk, StartKept;
    OthersKept(streams, seen, from, id, contents[id], streamsAfter, seenAfter, fromAfter);
    ObjectRead(streams0, from0, streams, seen, from, contents, id, streamsAfter, seenAfter, fromAfter);
    forall other | other in scanned
      ensures ReadChunk(streams0[other].offset, streamsAfter, seenAfter, contents, other)
      ensures StartKept(streams0, from0, fromAfter, other)
    {
      StillRead(streams0, from0, streams, seen, from, contents, other, streamsAfter, seenAfter, fromAfter);
    }
  }

  /** Why an opened path makes the check fail once the objects are read. */
  predicate LogFails(node: Node, contents: Logs, later: Node, sizes: Identity -> nat, streams: Streams) {
    && node.Regular? && node.id in streams && node.id in contents
    && (|contents[node.id]| < streams[node.id].offset || later != node || sizes(node.id) < streams[node.id].offset)
  }

  // ---- the answer ----

  function Initialized(streams: Streams): set<Identity> {
    set id | id in streams && streams[id].initialized
  }

  /** The answer of all streams together. */
  predicate Joined(mode: Mode, streams: Streams) {
    && (exists id :: id in streams && streams[id].state.flags.started)
    && (if mode.Cloud? then exists id :: id in streams && streams[id].state.flags.reconciled
        else forall poll :: poll in POLLS ==> exists id :: id in streams && poll in streams[id].state.flags.polls)
  }

  /** Every object was read from the furthest boundary known of it when it was read first. */
  ghost predicate StartsAtFurthest(streams0: Streams, from0: Starts, streams: Streams, from: Starts,
                                   paths: seq<Path>, boundaries: Boundaries, bound: set<Path>)
  {
    forall id :: id in streams && streams[id].initialized ==>
      && id in from
      && (if id in streams0 && streams0[id].initialized then id in from0 && from[id] == from0[id]
          else from[id] == Furthest(paths, boundaries, bound, id))
  }

  lemma NothingStarts(mode: Mode, pid: Option<nat>, streams0: Streams, streams: Streams, seen: Logs, from: Starts,
                      paths: seq<Path>, boundaries: Boundaries, bound: set<Path>)
    requires Read(mode, pid, streams, seen, from) && OnlyOpens(streams0, streams)
    ensures StartsAtFurthest(streams0, from, streams, from, paths, boundaries, bound)
  {
    hide StreamValid, Furthest;
  }

  lemma OpensNothing(streams: Streams)
    ensures OnlyOpens(streams, streams)
  {
  }

  lemma OpensAppended(streams0: Streams, streams: Streams, seen: Logs, contents: Logs)
    requires OnlyOpens(streams0, streams) && Appended(streams0, seen, contents)
    ensures Appended(streams, seen, contents)
  {
  }

  lemma ReadHasStart(mode: Mode, pid: Option<nat>, streams: Streams, seen: Logs, from: Starts)
    requires Read(mode, pid, streams, seen, from)
    ensures forall id :: id in streams && streams[id].initialized ==> id in from && id in seen
  {
    hide StreamValid;
  }

  /** Where a check begins to read an object. */
  function Begin(streams0: Streams, paths: seq<Path>, boundaries: Boundaries, bound: set<Path>, id: Identity): nat {
    if id in streams0 && streams0[id].initialized then streams0[id].offset else Furthest(paths, boundaries, bound, id)
  }

  lemma ReadBegins(streams0: Streams, streams: Streams, paths: seq<Path>, boundaries: Boundaries, bound: set<Path>)
    requires OnlyOpens(streams0, streams) && Waiting(paths, boundaries, bound, streams)
    ensures forall id :: id in streams ==> streams[id].offset == Begin(streams0, paths, boundaries, bound, id)
  {
    hide Furthest;
  }

  lemma ReadStarts(streams0: Streams, from0: Starts, streams1: Streams, streams: Streams, from: Starts,
                   paths: seq<Path>, boundaries: Boundaries, bound: set<Path>)
    requires OnlyOpens(streams0, streams1) && Waiting(paths, boundaries, bound, streams1)
    requires BoundariesKept(streams1, from0, streams, from)
    ensures StartsAtFurthest(streams0, from0, streams, from, paths, boundaries, bound)
  {
    hide Furthest;
  }

  lemma TooShort(view: Path -> Node, paths: seq<Path>, contents: Logs, later: Path -> Node, sizes: Identity -> nat,
                 streams: Streams)
    requires forall p :: p in paths && view(p).Regular? ==> view(p).id in streams && view(p).id in contents
    requires exists p :: p in paths && view(p).Regular? && streams[view(p).id].offset > |contents[view(p).id]|
    ensures exists p :: p in paths && LogFails(view(p), contents, later(p), sizes, streams)
  {
    var p :| p in paths && view(p).Regular? && streams[view(p).id].offset > |contents[view(p).id]|;
    assert LogFails(view(p), contents, later(p), sizes, streams);
  }

  lemma StreamFlags(mode: Mode, pid: nat, stream: Stream, seen: seq<byte>, from: nat)
    requires StreamValid(mode, Some(pid), stream, seen, from)
    ensures FlagsExact(mode, pid, seen, from, stream.state.flags)
  {
    hide FlagsExact, CarryExact;
  }

  /** The streams together have the flags of all the logs read so far. */
  lemma Answer(mode: Mode, pid: nat, streams: Streams, seen: Logs, from: Starts,
               paths: seq<Path>, boundaries: Boundaries, bound: set<Path>)
    requires Read(mode, Some(pid), streams, seen, from) && Waiting(paths, boundaries, bound, streams)
    ensures Initialized(streams) <= seen.Keys && Initialized(streams) <= from.Keys
    ensures Joined(mode, streams) <==> LogsReady(mode, pid, seen, from, Initialized(streams))
  {
    hide StreamValid, Furthest, LogStarted, LogPolled, LogReconciled;
    forall id | id in streams && streams[id].initialized
      ensures FlagsExact(mode, pid, seen[id], from[id], streams[id].state.flags)
    {
      StreamFlags(mode, pid, streams[id], seen[id], from[id]);
    }
  }

  lemma PidKept(mode: Mode, pid: Option<nat>, next: Option<nat>, streams: Streams, seen: Logs, from: Starts)
    requires Read(mode, pid, streams, seen, from) && (pid.None? || pid == next)
    ensures Read(mode, next, streams, seen, from)
  {
    hide Reflects;
  }
}
