/** Replay download (lolobserver-master/download_state.go): chunks and keyframes are fetched one by one
    and saved under names from which a later run can tell what is already there. */
module ReplayDownload {
  import opened Decimal
  import opened Wrappers

  // ---------- File names ----------

  const CURRENT_GAME := "current_game.json"
  const LAST_CHUNK := "last_chunk.json"
  const META := "meta.json"
  const VERSION := "version"
  const CHUNK_PREFIX := "chunk_"
  const KEYFRAME_PREFIX := "keyframe_"

  function ChunkName(n: int): string {
    CHUNK_PREFIX + Print(n)
  }

  function KeyframeName(n: int): string {
    KEYFRAME_PREFIX + Print(n)
  }

  datatype FileKind =
    | CurrentGame
    | Meta
    | Version
    | Chunk(n: int)
    | Keyframe(n: int)
    | Unknown
    | Malformed

  predicate HasPrefix(s: string, prefix: string) {
    prefix <= s
  }

  /** The part of a name behind its only underscore, if the part before it is as expected. */
  function Numbered(name: string, prefix: string): Option<string> {
    if HasPrefix(name, prefix) && '_' !in name[|prefix|..] then Some(name[|prefix|..]) else None
  }

  /** What a file is, by its base name. */
  function KindOf(name: string): FileKind {
    if name == CURRENT_GAME then CurrentGame
    else if name == META then Meta
    else if name == VERSION then Version
    else
      match Numbered(name, CHUNK_PREFIX)
      case Some(digits) => (match Parse(digits) case Some(n) => Chunk(n) case None => Malformed)
      case None =>
        match Numbered(name, KEYFRAME_PREFIX)
        case Some(digits) => (match Parse(digits) case Some(n) => Keyframe(n) case None => Malformed)
        case None => Unknown
  }

  lemma PrintHasNoUnderscore(n: int)
    ensures '_' !in Print(n)
  {
    assert !IsDigit('_');
  }

  lemma ChunkNameRoundTrip(n: int)
    requires InRange(n)
    ensures KindOf(ChunkName(n)) == Chunk(n)
  {
    hide Print, Parse;
    PrintHasNoUnderscore(n);
    ParsePrint(n);
    var name := ChunkName(n);
    assert name[|CHUNK_PREFIX|..] == Print(n);
    assert name[1] == 'h' && CURRENT_GAME[1] == 'u';
    assert name[0] == 'c' && META[0] == 'm' && VERSION[0] == 'v';
  }

  lemma KeyframeNameRoundTrip(n: int)
    requires InRange(n)
    ensures KindOf(KeyframeName(n)) == Keyframe(n)
  {
    hide Print, Parse;
    PrintHasNoUnderscore(n);
    ParsePrint(n);
    var name := KeyframeName(n);
    assert name[|KEYFRAME_PREFIX|..] == Print(n);
    assert name[0] == 'k' && CURRENT_GAME[0] == CHUNK_PREFIX[0] == 'c' && META[0] == 'm' && VERSION[0] == 'v';
  }

  /** A printed name is read back as the chunk or keyframe it was printed for. */
  lemma NamesRoundTrip(n: int)
    requires InRange(n)
    ensures KindOf(ChunkName(n)) == Chunk(n) && KindOf(KeyframeName(n)) == Keyframe(n)
  {
    ChunkNameRoundTrip(n);
    KeyframeNameRoundTrip(n);
  }

  /** The last part of a path. */
  function Base(path: string): string {
    if path == "" then "."
    else if path[|path| - 1] != '/' then AfterLastSlash(path)
    else if path == "/" then "/"
    else Base(path[..|path| - 1])
  }

  function AfterLastSlash(path: string): string {
    if '/' in path then AfterLastSlash(path[1..]) else path
  }

  /** A file saved in a directory is listed there under its own name. */
  lemma {:induction false} BaseOfSaved(dir: string, name: string)
    requires name != "" && '/' !in name
    ensures Base(dir + "/" + name) == name
  {
    var path := dir + "/" + name;
    assert path[|path| - 1] == name[|name| - 1];
    AfterLastSlashOfSaved(dir, name);
  }

  /** A slash at the end changes nothing, unless there is nothing else. */
  lemma {:induction false} SlashAtTheEnd(path: string)
    ensures Base(path + "/") == if path == "" then "/" else Base(path)
  {
    var more := path + "/";
    assert more[..|path|] == path && more[|more| - 1] == '/';
    if path != "" {
      assert more != "/";
    }
  }

  lemma {:induction false} AfterLastSlashOfSaved(dir: string, name: string)
    requires '/' !in name
    ensures AfterLastSlash(dir + "/" + name) == name
  {
    var path := dir + "/" + name;
    assert path[|dir|] == '/';
    if dir == "" {
      assert path[1..] == name;
    } else {
      assert path[1..] == dir[1..] + "/" + name;
      AfterLastSlashOfSaved(dir[1..], name);
    }
  }

  // ---------- What is known to be saved ----------

  datatype ChunkInfo = ChunkInfo(
    chunkID: int, keyFrameID: int, endGameChunkID: int, nextChunkID: int, nextAvailableChunk: int, duration: int)

  function Sanitized(info: ChunkInfo): ChunkInfo {
    info.(duration := 30000, nextAvailableChunk := 0,
    nextChunkID := if info.nextChunkID < info.chunkID then info.chunkID else info.nextChunkID)
  }

  /** The answer that is saved never points back to an earlier chunk and is otherwise that of the server, but for the
      two waiting times. Sanitizing it once is enough. */
  lemma SanitizedOnce(info: ChunkInfo)
    ensures var r := Sanitized(info);
            && r.chunkID <= r.nextChunkID && (info.chunkID <= info.nextChunkID ==> r.nextChunkID == info.nextChunkID)
            && (info.nextChunkID < info.chunkID ==> r.nextChunkID == r.chunkID)
            && r.duration == 30000 && r.nextAvailableChunk == 0 && Sanitized(r) == r
            && r.(nextChunkID := info.nextChunkID, duration := info.duration,
               nextAvailableChunk := info.nextAvailableChunk) == info
  {
  }

  /** What a download takes to be saved already. */
  datatype Known = Known(game: bool, meta: bool, version: bool, chunks: set<int>, keyframes: set<int>) {
    /** Everything taken to be saved is. */
    ghost predicate Sound(files: set<string>) {
      && (game ==> CURRENT_GAME in files)
      && (meta ==> META in files)
      && (version ==> VERSION in files)
      && (forall n <- chunks :: ChunkName(n) in files)
      && (forall n <- keyframes :: KeyframeName(n) in files)
    }

    /** Whether a file is taken to be saved. */
    ghost predicate Has(kind: FileKind) {
      match kind
      case CurrentGame => game
      case Meta => meta
      case Version => version
      case Chunk(n) => n in chunks
      case Keyframe(n) => n in keyframes
      case _ => false
    }
  }

  function AfterFile(k: Known, kind: FileKind): Known {
    match kind
    case CurrentGame => k.(game := true)
    case Meta => k.(meta := true)
    case Version => k.(version := true)
    case Chunk(n) => k.(chunks := k.chunks + {n})
    case Keyframe(n) => k.(keyframes := k.keyframes + {n})
    case _ => k
  }

  const NOTHING_KNOWN := Known(false, false, false, {}, {})

  /** Everything the names say, or nothing when one of them is malformed. */
  ghost predicate KnowsExactly(k: Known, names: seq<string>) {
    && (k.game <==> CURRENT_GAME in names)
    && (k.meta <==> META in names)
    && (k.version <==> VERSION in names)
    && (forall n :: n in k.chunks <==> exists name <- names :: KindOf(name) == Chunk(n))
    && (forall n :: n in k.keyframes <==> exists name <- names :: KindOf(name) == Keyframe(n))
  }

  /** The files a download writes. */
  ghost predicate IsWritten(name: string) {
    || name == CURRENT_GAME || name == LAST_CHUNK || name == META || name == VERSION
    || exists n :: InRange(n) && (name == ChunkName(n) || name == KeyframeName(n))
  }

  method Load(paths: seq<string>) returns (r: Option<Known>)
    ensures r.None? <==> exists path <- paths :: KindOf(Base(path)) == Malformed
    ensures r.Some? ==> KnowsExactly(r.value, seq(|paths|, i requires 0 <= i < |paths| => Base(paths[i])))
  {
    hide KnowsExactly, KindOf, Base, AfterFile;
    var k := NOTHING_KNOWN;
    NothingIsKnown();
    ghost var names: seq<string> := [];
    for i := 0 to |paths|
      invariant names == seq(i, j requires 0 <= j < i => Base(paths[j]))
      invariant forall path <- paths[..i] :: KindOf(Base(path)) != Malformed
      invariant KnowsExactly(k, names)
    {
      var name := Base(paths[i]);
      var kind := KindOf(name);
      if kind == Malformed {
        assert paths[i] in paths;
        return None;
      }
      KnowsOneMore(k, names, name);
      names := names + [name];
      k := AfterFile(k, kind);
    }
    assert paths[..|paths|] == paths;
    return Some(k);
  }

  lemma NothingIsKnown()
    ensures KnowsExactly(NOTHING_KNOWN, [])
  {
  }

  lemma KindIsExact(name: string)
    ensures KindOf(name) == CurrentGame <==> name == CURRENT_GAME
    ensures KindOf(name) == Meta <==> name == META
    ensures KindOf(name) == Version <==> name == VERSION
  {
    assert CURRENT_GAME[0] == 'c' && META[0] == 'm' && VERSION[0] == 'v';
  }

  lemma KnowsOneMore(k: Known, names: seq<string>, name: string)
    requires KnowsExactly(k, names)
    ensures KnowsExactly(AfterFile(k, KindOf(name)), names + [name])
  {
    KindIsExact(name);
    var more, k' := names + [name], AfterFile(k, KindOf(name));
    assert forall x :: x in more <==> x in names || x == name;
    forall n ensures n in k'.chunks <==> exists x <- more :: KindOf(x) == Chunk(n) {
      assert n in k.chunks <==> exists x <- names :: KindOf(x) == Chunk(n);
    }
    forall n ensures n in k'.keyframes <==> exists x <- more :: KindOf(x) == Keyframe(n) {
      assert n in k.keyframes <==> exists x <- names :: KindOf(x) == Keyframe(n);
    }
  }

  /** A fresh state takes for saved only what is. */
  lemma FreshStateIsSound(k: Known, names: seq<string>)
    requires KnowsExactly(k, names) && forall name <- names :: IsWritten(name)
    ensures k.Sound(set name <- names)
  {
    forall name | name in names
      ensures KindOf(name).Chunk? ==> name == ChunkName(KindOf(name).n)
      ensures KindOf(name).Keyframe? ==> name == KeyframeName(KindOf(name).n)
    {
      WrittenNames(name);
    }
  }

  /** After any earlier download, whether it failed or not, a fresh state knows of exactly those chunks and
      keyframes that were saved. */
  lemma FreshStateKnowsWhatIsSaved(k: Known, names: seq<string>, n: int)
    requires KnowsExactly(k, names) && InRange(n) && forall name <- names :: IsWritten(name)
    ensures n in k.chunks <==> ChunkName(n) in names
    ensures n in k.keyframes <==> KeyframeName(n) in names
  {
    NamesRoundTrip(n);
    FreshStateIsSound(k, names);
  }

  lemma NumberedIsPlain(prefix: string, n: int)
    requires '/' !in prefix
    ensures '/' !in prefix + Print(n)
  {
    assert !IsDigit('/');
  }

  lemma FixedNamesArePlain(name: string)
    requires name == CURRENT_GAME || name == LAST_CHUNK || name == META || name == VERSION
    ensures name != "" && '/' !in name && KindOf(name) != Malformed
  {
    KindIsExact(name);
    if name == LAST_CHUNK {
      assert name[0] == 'l';
    }
  }

  lemma WrittenIsPlain(name: string)
    requires IsWritten(name)
    ensures name != "" && '/' !in name && KindOf(name) != Malformed
  {
    hide KindOf, Print;
    if name == CURRENT_GAME || name == LAST_CHUNK || name == META || name == VERSION {
      FixedNamesArePlain(name);
    } else {
      var n :| InRange(n) && (name == ChunkName(n) || name == KeyframeName(n));
      NamesRoundTrip(n);
      NumberedIsPlain(CHUNK_PREFIX, n);
      NumberedIsPlain(KEYFRAME_PREFIX, n);
    }
  }

  lemma WrittenNames(name: string)
    requires IsWritten(name)
    ensures KindOf(name).Chunk? ==> name == ChunkName(KindOf(name).n)
    ensures KindOf(name).Keyframe? ==> name == KeyframeName(KindOf(name).n)
  {
    KindIsExact(name);
    if n :| InRange(n) && (name == ChunkName(n) || name == KeyframeName(n)) {
      NamesRoundTrip(n);
    } else {
      assert name != CURRENT_GAME && name != META && name != VERSION ==> name == LAST_CHUNK && name[0] == 'l';
    }
  }

  // ---------- Downloading ----------

  /** The directory that a match is downloaded to, what the replay server was asked for, and how many
      requests and writes have failed for good. */
  class Remote {
    var files: set<string>
    ghost var asked: seq<FileKind>
    ghost var faults: nat

    constructor (files: set<string>)
      ensures this.files == files && asked == [] && faults == 0
    {
      this.files, asked, faults := files, [], 0;
    }

    /** Asks the replay server, again and again for a while. */
    method Fetch(kind: FileKind) returns (ok: bool)
      modifies this`asked, this`faults
      ensures asked == old(asked) + [kind]
      ensures faults == old(faults) + if ok then 0 else 1
    {
      asked := asked + [kind];
      ok := *;
      if !ok {
        faults := faults + 1;
      }
    }

    /** Writes a file. A write that reports an error may have happened all the same. */
    method SaveAs(name: string) returns (ok: bool)
      modifies this`files, this`faults
      ensures old(files) <= files <= old(files) + {name}
      ensures ok ==> name in files
      ensures faults == old(faults) + if ok then 0 else 1
    {
      ok := *;
      var written := *;
      if ok || written {
        files := files + {name};
      }
      if !ok {
        faults := faults + 1;
      }
    }
  }

  function NameOf(kind: FileKind): string {
    match kind
    case CurrentGame => CURRENT_GAME
    case Meta => META
    case Version => VERSION
    case Chunk(n) => ChunkName(n)
    case Keyframe(n) => KeyframeName(n)
    case _ => LAST_CHUNK
  }

  /** What the replay server can be asked for. */
  predicate IsRequest(kind: FileKind) {
    match kind
    case Meta => true
    case Version => true
    case Chunk(n) => InRange(n)
    case Keyframe(n) => InRange(n)
    case _ => false
  }

  datatype Outcome = Done | Failed | StillWaiting

  predicate Valid(poll: Option<ChunkInfo>) {
    poll.Some? ==>
      InRange(poll.value.chunkID) && InRange(poll.value.keyFrameID) && InRange(poll.value.endGameChunkID)
  }

  /** Every file that the poll names is saved. */
  ghost predicate Holds(files: set<string>, info: ChunkInfo) {
    && (forall n :: 1 <= n <= info.chunkID ==> ChunkName(n) in files)
    && (forall n :: 1 <= n <= info.keyFrameID ==> KeyframeName(n) in files)
  }

  ghost predicate EndReached(info: ChunkInfo, chunks: set<int>) {
    info.endGameChunkID > 0 && info.endGameChunkID in chunks
  }

  ghost predicate Reported(poll: Option<ChunkInfo>, info: ChunkInfo) {
    poll.Some? && info == Sanitized(poll.value)
  }

  /** Everything needed to replay the match is saved. */
  ghost predicate Complete(files: set<string>, info: ChunkInfo) {
    && {CURRENT_GAME, LAST_CHUNK, META, VERSION} <= files
    && info.endGameChunkID > 0 && ChunkName(info.endGameChunkID) in files
    && Holds(files, info)
  }

  ghost predicate NoRepeats(s: seq<FileKind>) {
    forall i, j :: 0 <= i < j < |s| ==> s[i] != s[j]
  }

  /** What is known, what is saved and what was asked for at some moment of a run. */
  datatype Snapshot = Snapshot(known: Known, files: set<string>, asked: seq<FileKind>, faults: nat)

  /** What one save may do, whether it succeeds or not: nothing at all for a file that is known, and
      otherwise one request and at most one write. After a failed write the file counts as saved although
      it may be missing. */
  ghost predicate Saved(s: Snapshot, t: Snapshot, kind: FileKind, ok: bool) {
    if s.known.Has(kind) then
      ok && t == s
    else
      && t.asked == s.asked + [kind]
      && s.files <= t.files <= s.files + {NameOf(kind)}
      && (t.known == s.known || t.known == AfterFile(s.known, kind))
      && (ok ==> t.known.Has(kind) && NameOf(kind) in t.files)
      && t.faults == s.faults + (if ok then 0 else 1)
  }

  /** What holds throughout a run that began with `entry`: everything taken to be saved is, up to what a
      failed write has lost; nothing is deleted; and no file is asked for twice, or at all if it was known. */
  ghost predicate Run(entry: Snapshot, s: Snapshot, lost: set<string>) {
    && s.known.Sound(s.files + lost)
    && entry.files <= s.files
    && (forall name <- s.files - entry.files :: IsWritten(name))
    && NoRepeats(s.asked)
    && (forall kind <- s.asked :: IsRequest(kind) && !entry.known.Has(kind))
    && (forall kind :: entry.known.Has(kind) ==> s.known.Has(kind))
  }

  ghost predicate AllAnswered(s: Snapshot) {
    forall kind <- s.asked :: s.known.Has(kind)
  }

  lemma SaveKeepsRun(entry: Snapshot, s: Snapshot, t: Snapshot, kind: FileKind, ok: bool)
    requires Run(entry, s, {}) && AllAnswered(s) && Saved(s, t, kind, ok) && IsRequest(kind)
    ensures Run(entry, t, if ok then {} else {NameOf(kind)})
    ensures ok ==> AllAnswered(t)
  {
    assert s.files + {} == s.files && t.files + {} == t.files;
    if t.known == AfterFile(s.known, kind) {
      forall k: FileKind
        ensures t.known.Has(k) <==> s.known.Has(k) || k == kind
      {
      }
    }
  }

  lemma RunStarts(entry: Snapshot, s: Snapshot)
    requires entry.known.Sound(entry.files) && entry.asked == []
    requires entry.files <= s.files <= entry.files + {CURRENT_GAME} && s.known == entry.known && s.asked == []
    ensures Run(entry, s, {}) && AllAnswered(s)
  {
    assert s.files + {} == s.files;
  }

  lemma RunStays(entry: Snapshot, s: Snapshot, t: Snapshot)
    requires Run(entry, s, {}) && AllAnswered(s) && t.known == s.known && t.asked == s.asked
    requires s.files <= t.files <= s.files + {LAST_CHUNK}
    ensures Run(entry, t, {}) && AllAnswered(t)
  {
    assert s.files + {} == s.files && t.files + {} == t.files;
  }

  lemma KnownIsKept(entry: Snapshot, s: Snapshot)
    requires Run(entry, s, {})
    ensures entry.known.chunks <= s.known.chunks
  {
    forall n | n in entry.known.chunks
      ensures n in s.known.chunks
    {
      assert entry.known.Has(Chunk(n)) && s.known.Has(Chunk(n));
    }
  }

  lemma WhatIsKnownIsSaved(entry: Snapshot, s: Snapshot)
    requires Run(entry, s, {})
    ensures s.known.game ==> CURRENT_GAME in s.files
    ensures forall n <- s.known.chunks :: ChunkName(n) in s.files
    ensures forall n <- s.known.keyframes :: KeyframeName(n) in s.files
  {
    assert s.files + {} == s.files;
  }

  lemma HoldsStill(files: set<string>, more: set<string>, info: ChunkInfo)
    requires files <= more && Holds(files, info)
    ensures Holds(more, info)
  {
  }

  class ReplaySaveState {
    var game: bool
    var meta: bool
    var version: bool
    var chunks: set<int>
    var keyframes: set<int>
    var lastChunkInfo: ChunkInfo

    constructor (k: Known)
      ensures Knows() == k
    {
      game, meta, version, chunks, keyframes := k.game, k.meta, k.version, k.chunks, k.keyframes;
      lastChunkInfo := ChunkInfo(0, 0, 0, 0, 0, 0);
    }

    ghost function Knows(): Known
      reads this
    {
      Known(game, meta, version, chunks, keyframes)
    }

    ghost function Now(remote: Remote): Snapshot
      reads this, remote
    {
      Snapshot(Knows(), remote.files, remote.asked, remote.faults)
    }

    method SaveCurrentGame(remote: Remote) returns (ok: bool)
      modifies remote`files, remote`faults
      ensures old(remote.files) <= remote.files <= old(remote.files) + {CURRENT_GAME}
      ensures remote.faults == old(remote.faults) + if ok then 0 else 1
      ensures ok ==> game || CURRENT_GAME in remote.files
    {
      if game {
        return true;
      }
      ok := remote.SaveAs(CURRENT_GAME);
    }

    /** The answer of the server to the last of the retried polls is given. */
    method SaveChunkInfo(remote: Remote, poll: Option<ChunkInfo>) returns (ok: bool)
      modifies remote`files, remote`faults, this`lastChunkInfo
      ensures old(remote.files) <= remote.files <= old(remote.files) + {LAST_CHUNK}
      ensures remote.faults == old(remote.faults) + if ok || poll.None? then 0 else 1
      ensures ok ==> poll.Some? && lastChunkInfo == Sanitized(poll.value) && LAST_CHUNK in remote.files
    {
      if poll.None? {
        return false;
      }
      lastChunkInfo := Sanitized(poll.value);
      ok := remote.SaveAs(LAST_CHUNK);
    }

    method SaveChunk(remote: Remote, n: int) returns (ok: bool)
      modifies this`chunks, remote
      ensures Saved(old(Now(remote)), Now(remote), Chunk(n), ok)
      ensures lastChunkInfo == old(lastChunkInfo)
    {
      if n in chunks {
        return true;
      }
      ok := remote.Fetch(Chunk(n));
      if ok {
        chunks := chunks + {n};
        ok := remote.SaveAs(ChunkName(n));
      }
    }

    method SaveKeyframe(remote: Remote, n: int) returns (ok: bool)
      modifies this`keyframes, remote
      ensures Saved(old(Now(remote)), Now(remote), Keyframe(n), ok)
      ensures lastChunkInfo == old(lastChunkInfo)
    {
      if n in keyframes {
        return true;
      }
      ok := remote.Fetch(Keyframe(n));
      if ok {
        keyframes := keyframes + {n};
        ok := remote.SaveAs(KeyframeName(n));
      }
    }

    method SaveMeta(remote: Remote) returns (ok: bool)
      modifies this`meta, remote
      ensures Saved(old(Now(remote)), Now(remote), Meta, ok)
      ensures lastChunkInfo == old(lastChunkInfo)
    {
      if meta {
        return true;
      }
      ok := remote.Fetch(Meta);
      if ok {
        meta := true;
        ok := remote.SaveAs(META);
      }
    }

    method SaveVersion(remote: Remote) returns (ok: bool)
      modifies this`version, remote
      ensures Saved(old(Now(remote)), Now(remote), Version, ok)
      ensures lastChunkInfo == old(lastChunkInfo)
    {
      if version {
        return true;
      }
      ok := remote.Fetch(Version);
      if ok {
        version := true;
        ok := remote.SaveAs(VERSION);
      }
    }

    /** Saves chunks one to `last`, stopping at the first that fails. */
    method SaveChunks(remote: Remote, last: int, ghost entry: Snapshot) returns (ok: bool, ghost lost: set<string>)
      requires Run(entry, Now(remote), {}) && AllAnswered(Now(remote)) && InRange(last)
      modifies this`chunks, remote
      ensures |lost| <= 1 && Run(entry, Now(remote), lost) && old(remote.files) <= remote.files
      ensures remote.faults == old(remote.faults) + if ok then 0 else 1
      ensures ok ==> lost == {} && AllAnswered(Now(remote)) && forall n :: 1 <= n <= last ==> n in chunks
    {
      lost := {};
      var n := 1;
      while n <= last
        invariant 1 <= n
        invariant Run(entry, Now(remote), {}) && AllAnswered(Now(remote)) && old(remote.files) <= remote.files
        invariant remote.faults == old(remote.faults)
        invariant n <= last + 1 || last < 1
        invariant forall m :: 1 <= m < n ==> m in chunks
      {
        ghost var s := Now(remote);
        ok := SaveChunk(remote, n);
        SaveKeepsRun(entry, s, Now(remote), Chunk(n), ok);
        if !ok {
          return false, {ChunkName(n)};
        }
        n := n + 1;
      }
      ok := true;
    }

    method SaveKeyframes(remote: Remote, last: int, ghost entry: Snapshot) returns (ok: bool, ghost lost: set<string>)
      requires Run(entry, Now(remote), {}) && AllAnswered(Now(remote)) && InRange(last)
      modifies this`keyframes, remote
      ensures |lost| <= 1 && Run(entry, Now(remote), lost) && old(remote.files) <= remote.files
      ensures remote.faults == old(remote.faults) + if ok then 0 else 1
      ensures ok ==> lost == {} && AllAnswered(Now(remote)) && forall n :: 1 <= n <= last ==> n in keyframes
    {
      hide Run, AllAnswered;
      lost := {};
      var n := 1;
      while n <= last
        invariant 1 <= n
        invariant Run(entry, Now(remote), {}) && AllAnswered(Now(remote)) && old(remote.files) <= remote.files
        invariant remote.faults == old(remote.faults)
        invariant n <= last + 1 || last < 1
        invariant forall m :: 1 <= m < n ==> m in keyframes
      {
        ghost var s := Now(remote);
        ok := SaveKeyframe(remote, n);
        SaveKeepsRun(entry, s, Now(remote), Keyframe(n), ok);
        if !ok {
          return false, {KeyframeName(n)};
        }
        n := n + 1;
      }
      ok := true;
    }

    /** One round: the chunk information and every chunk and keyframe up to those it names. */
    method SaveRound(remote: Remote, poll: Option<ChunkInfo>, ghost entry: Snapshot)
      returns (ok: bool, ghost lost: set<string>)
      requires Run(entry, Now(remote), {}) && AllAnswered(Now(remote)) && Valid(poll)
      modifies this`lastChunkInfo, this`chunks, this`keyframes, remote
      ensures |lost| <= 1 && Run(entry, Now(remote), lost) && old(remote.files) <= remote.files
      ensures remote.faults == old(remote.faults) + if ok || poll.None? then 0 else 1
      ensures ok ==> lost == {} && AllAnswered(Now(remote)) && poll.Some? && lastChunkInfo == Sanitized(poll.value)
      ensures ok ==> Holds(remote.files, lastChunkInfo) && LAST_CHUNK in remote.files
    {
      hide Run, AllAnswered;
      lost := {};
      ghost var s := Now(remote);
      ok := SaveChunkInfo(remote, poll);
      RunStays(entry, s, Now(remote));
      if ok {
        ok, lost := SaveChunks(remote, lastChunkInfo.chunkID, entry);
      }
      if ok {
        ok, lost := SaveKeyframes(remote, lastChunkInfo.keyFrameID, entry);
        if ok {
          WhatIsKnownIsSaved(entry, Now(remote));
        }
      }
    }

    /** Round after round, until the last chunk of the game is saved. */
    method SaveRounds(remote: Remote, polls: seq<Option<ChunkInfo>>, ghost entry: Snapshot)
      returns (ok: bool, ended: bool, ghost lost: set<string>)
      requires Run(entry, Now(remote), {}) && AllAnswered(Now(remote)) && forall poll <- polls :: Valid(poll)
      modifies this`lastChunkInfo, this`chunks, this`keyframes, remote
      ensures |lost| <= 1 && Run(entry, Now(remote), lost) && old(remote.files) <= remote.files
      ensures ok ==> remote.faults == old(remote.faults)
      ensures !ok ==> remote.faults > old(remote.faults) || None in polls
      ensures ok ==> lost == {} && AllAnswered(Now(remote))
      ensures ok && ended ==> Holds(remote.files, lastChunkInfo) && EndReached(lastChunkInfo, chunks)
      ensures ok && ended ==> LAST_CHUNK in remote.files && exists poll <- polls :: Reported(poll, lastChunkInfo)
      ensures ok && !ended ==>
                forall poll <- polls :: poll.Some? && !EndReached(Sanitized(poll.value), entry.known.chunks)
    {
      hide Run, AllAnswered, Holds;
      lost, ended := {}, false;
      var i := 0;
      while i < |polls| && !ended
        invariant i <= |polls|
        invariant Run(entry, Now(remote), {}) && AllAnswered(Now(remote)) && old(remote.files) <= remote.files
        invariant remote.faults == old(remote.faults)
        invariant ended ==> Holds(remote.files, lastChunkInfo) && EndReached(lastChunkInfo, chunks)
        invariant ended ==> LAST_CHUNK in remote.files && exists poll <- polls :: Reported(poll, lastChunkInfo)
        invariant !ended ==>
                    forall poll <- polls[..i] :: poll.Some? && !EndReached(Sanitized(poll.value), entry.known.chunks)
        invariant lost == {}
      {
        assert polls[i] in polls;
        ok, lost := SaveRound(remote, polls[i], entry);
        if !ok {
          return false, false, lost;
        }
        assert Reported(polls[i], lastChunkInfo);
        ended := lastChunkInfo.endGameChunkID > 0 && lastChunkInfo.endGameChunkID in chunks;
        KnownIsKept(entry, Now(remote));
        i := i + 1;
      }
      ok := true;
      assert !ended ==> polls[..i] == polls;
    }

    /** The two files that are saved last. */
    method SaveRest(remote: Remote, ghost entry: Snapshot) returns (ok: bool, ghost lost: set<string>)
      requires Run(entry, Now(remote), {}) && AllAnswered(Now(remote))
      modifies this`meta, this`version, remote
      ensures |lost| <= 1 && Run(entry, Now(remote), lost) && old(remote.files) <= remote.files
      ensures remote.faults == old(remote.faults) + if ok then 0 else 1
      ensures ok ==> lost == {} && {META, VERSION} <= remote.files
    {
      hide AllAnswered;
      assert remote.files + {} == remote.files;
      lost := {};
      ghost var s := Now(remote);
      ok := SaveMeta(remote);
      SaveKeepsRun(entry, s, Now(remote), Meta, ok);
      assert remote.files + {} == remote.files;
      if !ok {
        return false, {META};
      }
      s := Now(remote);
      ok := SaveVersion(remote);
      SaveKeepsRun(entry, s, Now(remote), Version, ok);
      assert remote.files + {} == remote.files;
      if !ok {
        return false, {VERSION};
      }
    }

    /** Downloads the match, given the answers to successive polls for chunk information. Success means
        that nothing is missing; a failure leaves behind at most one file taken to be saved that is not. */
    method Save(remote: Remote, polls: seq<Option<ChunkInfo>>) returns (r: Outcome, ghost lost: set<string>)
      requires Knows().Sound(remote.files) && remote.asked == []
      requires forall poll <- polls :: Valid(poll)
      modifies this, remote
      ensures |lost| <= 1 && Run(old(Now(remote)), Now(remote), lost)
      ensures r != Failed ==> lost == {} && remote.faults == old(remote.faults)
      ensures r == Failed ==> remote.faults > old(remote.faults) || None in polls
      ensures r == Done ==>
                Complete(remote.files, lastChunkInfo) && exists poll <- polls :: Reported(poll, lastChunkInfo)
      ensures r == StillWaiting ==>
                forall poll <- polls :: poll.Some? && !EndReached(Sanitized(poll.value), old(chunks))
    {
      hide Holds, IsWritten;
      ghost var entry := Now(remote);
      lost := {};
      var ok := SaveCurrentGame(remote);
      RunStarts(entry, Now(remote));
      if !ok {
        return Failed, lost;
      }
      assert CURRENT_GAME in remote.files;
      var ended;
      ok, ended, lost := SaveRounds(remote, polls, entry);
      if !ok {
        return Failed, lost;
      } else if !ended {
        return StillWaiting, lost;
      }
      ghost var info := lastChunkInfo;
      WhatIsKnownIsSaved(entry, Now(remote));
      assert ChunkName(info.endGameChunkID) in remote.files && Holds(remote.files, info);
      label Before:
      ok, lost := SaveRest(remote, entry);
      HoldsStill(old@Before(remote.files), remote.files, info);
      r := if ok then Done else Failed;
    }
  }

  /** A match is downloaded, or resumed, by a state loaded from the listing of its directory, or from
      nothing when the directory cannot be listed. */
  method Download(dir: string, listing: Option<seq<string>>, remote: Remote, polls: seq<Option<ChunkInfo>>)
    returns (r: Outcome)
    requires forall name <- remote.files :: IsWritten(name)
    requires listing.Some? ==> (set name <- listing.value) == remote.files
    requires remote.asked == [] && forall poll <- polls :: Valid(poll)
    modifies remote
    ensures old(remote.files) <= remote.files && forall name <- remote.files :: IsWritten(name)
    ensures NoRepeats(remote.asked)
    ensures r == Failed ==> remote.faults > old(remote.faults) || None in polls
    ensures listing.Some? ==> forall kind <- remote.asked :: NameOf(kind) !in old(remote.files)
    ensures r == Done ==> exists poll <- polls :: poll.Some? && Complete(remote.files, Sanitized(poll.value))
  {
    hide KindOf, Base, Print, Complete, Holds;
    var names := if listing.Some? then listing.value else [];
    var paths := seq(|names|, i requires 0 <= i < |names| => dir + "/" + names[i]);
    forall i | 0 <= i < |names|
      ensures Base(paths[i]) == names[i] && KindOf(names[i]) != Malformed
    {
      assert names[i] in remote.files;
      WrittenIsPlain(names[i]);
      BaseOfSaved(dir, names[i]);
    }
    var loaded := Load(paths);
    assert seq(|paths|, i requires 0 <= i < |paths| => Base(paths[i])) == names;
    var known := loaded.value;
    FreshStateIsSound(known, names);
    assert (set name <- names) <= remote.files;
    var state := new ReplaySaveState(known);
    ghost var lost;
    r, lost := state.Save(remote, polls);
    if listing.Some? {
      forall kind | kind in remote.asked
        ensures NameOf(kind) !in old(remote.files)
      {
        if kind.Chunk? || kind.Keyframe? {
          FreshStateKnowsWhatIsSaved(known, names, kind.n);
        }
        assert forall name :: name in old(remote.files) ==> name in names;
      }
    }
  }
}
