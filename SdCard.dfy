/** The SD-card player: albums are the eligible directories at the root of
    the card, tracks the eligible files of an album directory, optionally
    ordered by an `album.m3u`/`album.m3u8` playlist file. The player keeps
    the current album and track, a track table (`shuffle`) and a menu/playback
    state, and drives the playlist through the calls it returns.

    The card is an in-memory value: a listing per directory path (in the
    order `openNextFile` returns the entries) and contents per file path. */
module SdCard {
  import opened Util
  import opened Playlist

  const MaxAlbums := 99
  const MaxTracks := 999
  /** Size of the stack buffers that hold paths and playlist lines. */
  const BufferSize := 256
  /** Size `announce` passes to `snprintf` for the number file name. */
  const NumberBufferSize := 128

  /** Identity of the `sdPlaylistEnd` function registered with the playlist. */
  const SdPlaylistEnd: Handle := 1

  // ---------------------------------------------------------------------
  // The card
  // ---------------------------------------------------------------------

  datatype Entry = Entry(name: string, isDir: bool)

  /** `dirs` maps a directory path ("/" for the root) to its entries, `files`
      maps a file path to its bytes. */
  datatype Card = Card(dirs: map<string, seq<Entry>>, files: map<string, seq<char>>)

  /** The entries `openNextFile` yields for `path`; an unknown path opens as
      an invalid handle that yields nothing. */
  function Listing(card: Card, path: string): seq<Entry>
  {
    if path in card.dirs then card.dirs[path] else []
  }

  /** `SD.exists(path)`. */
  predicate Exists(card: Card, path: string)
  {
    path in card.dirs || path in card.files
  }

  /** The bytes `SD.open(path)` reads; a directory reads as empty. */
  function Contents(card: Card, path: string): seq<char>
  {
    if path in card.files then card.files[path] else []
  }

  // ---------------------------------------------------------------------
  // Eligibility
  // ---------------------------------------------------------------------

  predicate Hidden(name: string)
  {
    |name| > 0 && name[0] == '.'
  }

  /** A root entry that counts as an album (sdcard.cpp:34-39, 73-78). */
  predicate IsAlbum(e: Entry)
  {
    e.isDir && !Hidden(e.name)
    && !EqualsIgnoreCase("system", e.name) && !EqualsIgnoreCase("webradio", e.name)
  }

  /** A directory entry that counts as a track; the scans at sdcard.cpp:107-118,
      147-158 and 220-231 apply this same test. */
  predicate IsTrack(e: Entry)
  {
    !e.isDir && !Hidden(e.name)
    && !EqualsIgnoreCase("album.mp3", e.name)
    && !EndsWithIgnoreCase(e.name, ".jpg")
    && !EndsWithIgnoreCase(e.name, ".jpeg")
    && !EndsWithIgnoreCase(e.name, ".png")
    && !EndsWithIgnoreCase(e.name, ".nfo")
    && !EndsWithIgnoreCase(e.name, ".m3u")
    && !EndsWithIgnoreCase(e.name, ".m3u8")
  }

  datatype Kind = AlbumKind | TrackKind

  predicate Eligible(kind: Kind, e: Entry)
  {
    match kind
    case AlbumKind => IsAlbum(e)
    case TrackKind => IsTrack(e)
  }

  /** The eligible entries, in directory order. Defined from the back so that
      a scan that has looked at a prefix has built a prefix of it. */
  function Filter(kind: Kind, es: seq<Entry>): (r: seq<Entry>)
    decreases |es|
    ensures |r| <= |es|
  {
    if es == [] then []
    else
      var last := es[|es| - 1];
      Filter(kind, es[..|es| - 1]) + (if Eligible(kind, last) then [last] else [])
  }

  function Albums(card: Card): seq<Entry>
  {
    Filter(AlbumKind, Listing(card, "/"))
  }

  function Tracks(card: Card, path: string): seq<Entry>
  {
    Filter(TrackKind, Listing(card, path))
  }

  /** The path `file.path()` reports for an album directory at the root. */
  function AlbumPath(e: Entry): string
  {
    "/" + e.name
  }

  /** `pathOfAlbumAtIndex(k)`: the path of the k-th album, NULL when there is none. */
  function AlbumPathAt(card: Card, k: int): Option<string>
  {
    if 0 <= k < |Albums(card)| then Some(AlbumPath(Albums(card)[k])) else None
  }

  /** `nameOfTrackAtIndex(path, k)`: the name of the k-th track, NULL when there is none. */
  function TrackNameAt(card: Card, path: string, k: int): Option<string>
  {
    if 0 <= k < |Tracks(card, path)| then Some(Tracks(card, path)[k].name) else None
  }

  /** The position of the first entry whose name equals `search` ignoring case. */
  function FindName(ts: seq<Entry>, search: string): (r: Option<nat>)
    decreases |ts|
    ensures r.Some? ==> r.value < |ts| && EqualsIgnoreCase(search, ts[r.value].name)
    ensures r.Some? ==> forall j :: 0 <= j < r.value ==> !EqualsIgnoreCase(search, ts[j].name)
    ensures r.None? ==> forall j :: 0 <= j < |ts| ==> !EqualsIgnoreCase(search, ts[j].name)
  {
    if ts == [] then None
    else if EqualsIgnoreCase(search, ts[0].name) then Some(0)
    else
      match FindName(ts[1..], search)
      case None => None
      case Some(p) => Some(p + 1)
  }

  /** What `indexForFilenameAtPath` returns: its counter starts at -1, so a
      match at position p yields p - 1; no match yields -1. A result of 0 or
      more names the track before the one searched for, and -1 stands both
      for no match and for a match at the first track. */
  function IndexAsWritten(ts: seq<Entry>, search: string): (r: int)
    ensures r >= -1
    ensures r >= 0 ==> r + 1 < |ts| && EqualsIgnoreCase(search, ts[r + 1].name)
    ensures r == -1 <==> (forall j :: 0 <= j < |ts| ==> !EqualsIgnoreCase(search, ts[j].name))
                         || (|ts| > 0 && EqualsIgnoreCase(search, ts[0].name))
  {
    match FindName(ts, search)
    case Some(p) => p - 1
    case None => -1
  }

  /** The index the m3u lookup evidently means: the position of the first
      track whose name equals the search ignoring case, or -1 when none does. */
  function IntendedIndex(ts: seq<Entry>, search: string): (r: int)
    ensures r == -1 <==> forall j :: 0 <= j < |ts| ==> !EqualsIgnoreCase(search, ts[j].name)
    ensures r != -1 ==> 0 <= r < |ts| && EqualsIgnoreCase(search, ts[r].name)
                        && forall j :: 0 <= j < r ==> !EqualsIgnoreCase(search, ts[j].name)
  {
    match FindName(ts, search)
    case Some(p) => p
    case None => -1
  }

  // ---------------------------------------------------------------------
  // Lemmas about the filter and the lookups
  // ---------------------------------------------------------------------

  /** Filtering distributes over concatenation. */
  lemma {:induction false} FilterSplit(kind: Kind, a: seq<Entry>, b: seq<Entry>)
    ensures Filter(kind, a + b) == Filter(kind, a) + Filter(kind, b)
    decreases |b|
  {
    if b == [] {
      assert a + b == a;
    } else {
      var b' := b[..|b| - 1];
      var last := b[|b| - 1];
      FilterSplit(kind, a, b');
      assert (a + b)[..|a + b| - 1] == a + b';
      assert (a + b)[|a + b| - 1] == last;
      var tail := if Eligible(kind, last) then [last] else [];
      assert Filter(kind, a) + Filter(kind, b') + tail == Filter(kind, a) + (Filter(kind, b') + tail);
    }
  }

  /** An entry survives the filter exactly when it is listed and eligible. */
  lemma {:induction false} FilterMembers(kind: Kind, es: seq<Entry>, e: Entry)
    ensures e in Filter(kind, es) <==> e in es && Eligible(kind, e)
    decreases |es|
  {
    if es != [] {
      var init := es[..|es| - 1];
      FilterMembers(kind, init, e);
      assert es == init + [es[|es| - 1]];
    }
  }

  /** The filter of a prefix grows by the next entry when that one is eligible. */
  lemma FilterStep(kind: Kind, es: seq<Entry>, i: nat)
    requires i < |es|
    ensures Filter(kind, es[..i + 1]) == Filter(kind, es[..i]) + (if Eligible(kind, es[i]) then [es[i]] else [])
  {
    assert es[..i + 1][..i] == es[..i];
  }

  /** A scan that has looked at the first i entries has seen a prefix of the filter. */
  lemma FilterPrefix(kind: Kind, es: seq<Entry>, i: nat)
    requires i <= |es|
    ensures Filter(kind, es) == Filter(kind, es[..i]) + Filter(kind, es[i..])
  {
    FilterSplit(kind, es[..i], es[i..]);
    assert es[..i] + es[i..] == es;
  }

  /** No entry of `ts` has the name `search`, ignoring case. */
  predicate NoneMatch(ts: seq<Entry>, search: string)
  {
    forall j :: 0 <= j < |ts| ==> !EqualsIgnoreCase(search, ts[j].name)
  }

  /** A scan of the listing that passes entry i without a match has still
      met no matching track, and has counted entry i if it is a track. */
  lemma ScanMiss(dir: seq<Entry>, i: nat, search: string)
    requires i < |dir| && NoneMatch(Filter(TrackKind, dir[..i]), search)
    requires !(IsTrack(dir[i]) && EqualsIgnoreCase(search, dir[i].name))
    ensures NoneMatch(Filter(TrackKind, dir[..i + 1]), search)
    ensures |Filter(TrackKind, dir[..i + 1])| == |Filter(TrackKind, dir[..i])| + (if IsTrack(dir[i]) then 1 else 0)
  {
    FilterStep(TrackKind, dir, i);
  }

  /** A scan that meets its first matching track at entry i has counted the
      tracks before it, which is where the match lies in the track list. */
  lemma ScanHit(dir: seq<Entry>, i: nat, search: string)
    requires i < |dir| && NoneMatch(Filter(TrackKind, dir[..i]), search)
    requires IsTrack(dir[i]) && EqualsIgnoreCase(search, dir[i].name)
    ensures FindName(Filter(TrackKind, dir), search) == Some(|Filter(TrackKind, dir[..i])|)
  {
    var pre := Filter(TrackKind, dir[..i]);
    var ts := Filter(TrackKind, dir);
    FilterAt(TrackKind, dir, i);
    FilterPrefix(TrackKind, dir, i);
    assert forall j :: 0 <= j < |pre| ==> ts[j] == pre[j];
    FindFirstMatch(ts, search, |pre|);
  }

  /** The lookup finds the first match. */
  lemma FindFirstMatch(ts: seq<Entry>, search: string, k: nat)
    requires k < |ts| && EqualsIgnoreCase(search, ts[k].name)
    requires forall j :: 0 <= j < k ==> !EqualsIgnoreCase(search, ts[j].name)
    ensures FindName(ts, search) == Some(k)
  {
  }

  /** An eligible entry at position i is the filter's entry number
      `|Filter(es[..i])|`. */
  lemma FilterAt(kind: Kind, es: seq<Entry>, i: nat)
    requires i < |es| && Eligible(kind, es[i])
    ensures |Filter(kind, es[..i])| < |Filter(kind, es)|
    ensures Filter(kind, es)[|Filter(kind, es[..i])|] == es[i]
  {
    FilterStep(kind, es, i);
    FilterPrefix(kind, es, i + 1);
  }

  /** The off-by-one of `indexForFilenameAtPath`: the first match at position
      p yields p - 1, so the first two tracks are never kept by a playlist
      file (only results above 0 are). */
  lemma IndexAsWrittenIsShifted(ts: seq<Entry>, search: string)
    ensures FindName(ts, search).Some? ==> IndexAsWritten(ts, search) == FindName(ts, search).value - 1
    ensures FindName(ts, search).None? ==> IndexAsWritten(ts, search) == -1
    ensures IndexAsWritten(ts, search) > 0 <==> FindName(ts, search).Some? && FindName(ts, search).value >= 2
  {
  }

  /** A playlist naming the third of three tracks keeps index 1, which names the second. */
  lemma ThirdTrackPlaysSecond()
    ensures var ts := [Entry("a.mp3", false), Entry("b.mp3", false), Entry("c.mp3", false)];
            IndexAsWritten(ts, "C.MP3") == 1 && ts[1].name == "b.mp3"
  {
    var ts := [Entry("a.mp3", false), Entry("b.mp3", false), Entry("c.mp3", false)];
    assert !EqualsIgnoreCase("C.MP3", "a.mp3") by { assert Lower("C.MP3"[0]) != Lower("a.mp3"[0]); }
    assert !EqualsIgnoreCase("C.MP3", "b.mp3") by { assert Lower("C.MP3"[0]) != Lower("b.mp3"[0]); }
    assert EqualsIgnoreCase("C.MP3", "c.mp3");
    assert ts[1..][1..] == [Entry("c.mp3", false)];
    assert FindName(ts[1..][1..], "C.MP3") == Some(0);
    assert FindName(ts[1..], "C.MP3") == Some(1);
  }

  /** The intended lookup finds a listed name back at its own position when
      no earlier track has the same name (ignoring case). */
  lemma IntendedIndexRoundTrip(ts: seq<Entry>, k: nat)
    requires k < |ts|
    requires forall j :: 0 <= j < k ==> !EqualsIgnoreCase(ts[k].name, ts[j].name)
    ensures IntendedIndex(ts, ts[k].name) == k
  {
    assert EqualsIgnoreCase(ts[k].name, ts[k].name);
  }

  /** Whatever the intended lookup returns names the searched file. */
  lemma IntendedIndexNamesSearch(card: Card, path: string, search: string)
    ensures var k := IntendedIndex(Tracks(card, path), search);
            k == -1 || (TrackNameAt(card, path, k).Some? && EqualsIgnoreCase(search, TrackNameAt(card, path, k).value))
  {
  }

  // ---------------------------------------------------------------------
  // The track table
  // ---------------------------------------------------------------------

  function Nuls(n: nat): (r: seq<char>)
    ensures |r| == n && forall i :: 0 <= i < n ==> r[i] == '\0'
  {
    seq(n, _ => '\0')
  }

  /** The buffer after `got` has been written over its first bytes. */
  function Overlay(buf: seq<char>, got: seq<char>): (r: seq<char>)
    requires |got| <= |buf|
    ensures |r| == |buf| && r[..|got|] == got && r[|got|..] == buf[|got|..]
  {
    got + buf[|got|..]
  }

  /** The C string a buffer holds: its bytes up to the first NUL, or all of
      them when there is none. */
  function CString(b: seq<char>): (s: string)
    ensures |s| <= |b| && s == b[..|s|] && '\0' !in s
    ensures |s| < |b| ==> b[|s|] == '\0'
  {
    if b == [] || b[0] == '\0' then [] else [b[0]] + CString(b[1..])
  }

  /** The buffer holding `snprintf(buffer, 256, "%s", s)` written over `buf`:
      it reads back as the text cut to 255 bytes (for a text without a
      NUL), and the bytes behind the terminating NUL are the old ones. */
  function Printed(buf: seq<char>, s: string): (r: seq<char>)
    requires |buf| == BufferSize
    ensures |r| == BufferSize
    ensures '\0' !in s ==> CString(r) == Bounded(s, BufferSize)
    ensures r[|Bounded(s, BufferSize)| + 1..] == buf[|Bounded(s, BufferSize)| + 1..]
  {
    var t := Bounded(s, BufferSize);
    var r := Overlay(buf, t + ['\0']);
    assert '\0' !in s ==> CString(r) == t by {
      if '\0' !in s {
        assert r == t + ['\0'] + buf[|t| + 1..];
        CStringTerminated(t, buf[|t| + 1..]);
      }
    }
    r
  }

  /** The playlist file `switchAlbum` opens for an album, if any, with the
      buffer that holds its name: `album.m3u` first, then `album.m3u8`.
      The buffer starts out as NULs, and for a path without a NUL it reads
      back as the name chosen. */
  function PlaylistFile(card: Card, path: string): (r: Option<(string, seq<char>)>)
    ensures var m3u := Bounded(path + "/album.m3u", BufferSize);
            var m3u8 := Bounded(path + "/album.m3u8", BufferSize);
            && (Exists(card, m3u) ==> r.Some? && r.value.0 == m3u)
            && (!Exists(card, m3u) && Exists(card, m3u8) ==> r.Some? && r.value.0 == m3u8)
            && (!Exists(card, m3u) && !Exists(card, m3u8) ==> r.None?)
    ensures r.Some? ==> |r.value.1| == BufferSize
    ensures r.Some? && '\0' !in path ==> CString(r.value.1) == r.value.0
  {
    var m3u := Bounded(path + "/album.m3u", BufferSize);
    var b1 := Printed(Nuls(BufferSize), path + "/album.m3u");
    if Exists(card, m3u) then Some((m3u, b1))
    else
      var m3u8 := Bounded(path + "/album.m3u8", BufferSize);
      var b2 := Printed(b1, path + "/album.m3u8");
      if Exists(card, m3u8) then Some((m3u8, b2)) else None
  }

  /** Where the last read of a line starts: a read that fills the buffer is
      followed by another. */
  function LastReadStart(data: seq<char>, pos: nat): (q: nat)
    requires pos <= |data|
    ensures pos <= q <= |data|
    decreases |data| - pos
  {
    var (got, next) := ReadBytesUntil(data, pos, '\n', BufferSize);
    if |got| == BufferSize then LastReadStart(data, next) else pos
  }

  /** One pass of the outer loop of sdcard.cpp:194-198: read up to 256 bytes
      of a line into the buffer, and keep reading while a read fills it.
      Returns the buffer and the next read position. The buffer holds the
      last read written over what the buffer held before it: the bytes of
      the read before when there was one (it filled the buffer), the old
      buffer otherwise. */
  function ReadLine(data: seq<char>, pos: nat, buf: seq<char>): (r: (seq<char>, nat))
    requires pos <= |data| && |buf| == BufferSize
    ensures |r.0| == BufferSize && pos <= r.1 <= |data|
    ensures pos < |data| ==> pos < r.1
    decreases |data| - pos
  {
    var (got, next) := ReadBytesUntil(data, pos, '\n', BufferSize);
    var b := Overlay(buf, got);
    if |got| == BufferSize then ReadLine(data, next, b) else (b, next)
  }

  /** The closed form of one pass: the last read of the line, which does
      not fill the buffer (LastReadIsShort), written over the old buffer when
      it is the only read, and over the 256 bytes of the read before it
      otherwise; the position is after that last read. */
  function LastLine(data: seq<char>, pos: nat, buf: seq<char>): (r: (seq<char>, nat))
    requires pos <= |data| && |buf| == BufferSize && (LastReadStart(data, pos) == pos || LastReadStart(data, pos) >= BufferSize)
  {
    var last := ReadBytesUntil(data, LastReadStart(data, pos), '\n', BufferSize);
    (Overlay(LineBase(data, pos, buf), last.0), last.1)
  }

  /** What the last read of a pass is written over. */
  function LineBase(data: seq<char>, pos: nat, buf: seq<char>): (base: seq<char>)
    requires pos <= |data| && |buf| == BufferSize && (LastReadStart(data, pos) == pos || LastReadStart(data, pos) >= BufferSize)
    ensures |base| == BufferSize
  {
    var q := LastReadStart(data, pos);
    if q == pos then buf else data[q - BufferSize..q]
  }

  /** The read a pass ends with does not fill the buffer, and a pass with
      earlier reads has 256 bytes behind its last one. */
  lemma {:induction false} LastReadIsShort(data: seq<char>, pos: nat)
    requires pos <= |data|
    ensures |ReadBytesUntil(data, LastReadStart(data, pos), '\n', BufferSize).0| < BufferSize
    ensures LastReadStart(data, pos) == pos || pos + BufferSize <= LastReadStart(data, pos)
    decreases |data| - pos
  {
    var rd := ReadBytesUntil(data, pos, '\n', BufferSize);
    if |rd.0| == BufferSize {
      ReadBytesUntilFacts(data, pos, '\n', BufferSize);
      LastReadIsShort(data, rd.1);
    }
  }

  /** One pass is its closed form, by induction over the reads that fill
      the buffer. */
  lemma {:induction false} ReadLineIsLastLine(data: seq<char>, pos: nat, buf: seq<char>)
    requires pos <= |data| && |buf| == BufferSize
    ensures LastReadStart(data, pos) == pos || LastReadStart(data, pos) >= BufferSize
    ensures ReadLine(data, pos, buf) == LastLine(data, pos, buf)
    decreases |data| - pos
  {
    var rd := ReadBytesUntil(data, pos, '\n', BufferSize);
    if |rd.0| == BufferSize {
      ReadLineFills(data, pos, buf);
      ReadLineIsLastLine(data, rd.1, Overlay(buf, rd.0));
      LastLineAfterFill(data, pos, buf);
    }
  }

  /** The closed form does not change over a read that fills the buffer. */
  lemma LastLineAfterFill(data: seq<char>, pos: nat, buf: seq<char>)
    requires pos <= |data| && |buf| == BufferSize
    requires |ReadBytesUntil(data, pos, '\n', BufferSize).0| == BufferSize
    requires LastReadStart(data, pos) == pos || LastReadStart(data, pos) >= BufferSize
    ensures var rd := ReadBytesUntil(data, pos, '\n', BufferSize);
            && (LastReadStart(data, rd.1) == rd.1 || LastReadStart(data, rd.1) >= BufferSize)
            && LastLine(data, pos, buf) == LastLine(data, rd.1, Overlay(buf, rd.0))
  {
    FillingRead(data, pos, buf);
    var rd := ReadBytesUntil(data, pos, '\n', BufferSize);
    assert LineBase(data, pos, buf) == LineBase(data, rd.1, Overlay(buf, rd.0));
  }

  /** A read that fills the buffer leaves exactly the 256 bytes it read, and
      the pass goes on from after it. */
  lemma FillingRead(data: seq<char>, pos: nat, buf: seq<char>)
    requires pos <= |data| && |buf| == BufferSize
    requires |ReadBytesUntil(data, pos, '\n', BufferSize).0| == BufferSize
    ensures var rd := ReadBytesUntil(data, pos, '\n', BufferSize);
            && rd.1 == pos + BufferSize
            && Overlay(buf, rd.0) == data[rd.1 - BufferSize..rd.1]
            && LastReadStart(data, pos) == LastReadStart(data, rd.1)
  {
    ReadBytesUntilFacts(data, pos, '\n', BufferSize);
  }

  /** After a read that fills the buffer, the pass goes on from after it. */
  lemma ReadLineFills(data: seq<char>, pos: nat, buf: seq<char>)
    requires pos <= |data| && |buf| == BufferSize
    requires |ReadBytesUntil(data, pos, '\n', BufferSize).0| == BufferSize
    ensures var rd := ReadBytesUntil(data, pos, '\n', BufferSize);
            ReadLine(data, pos, buf) == ReadLine(data, rd.1, Overlay(buf, rd.0))
  {
  }

  /** The table entry a line read into `buf` contributes: none for a comment,
      or when the lookup result is not above 0. */
  function LineEntry(card: Card, path: string, buf: seq<char>): (e: seq<int>)
    requires |buf| == BufferSize
    ensures |e| <= 1 && forall i :: 0 <= i < |e| ==> 0 < e[i] && e[i] + 1 < |Tracks(card, path)|
  {
    if buf[0] != '#' then
      var index := IndexAsWritten(Tracks(card, path), CString(buf));
      if index > 0 then [index] else []
    else []
  }

  /** The table the playlist file's bytes `data` give, reading from `pos` with
      the buffer in state `buf`: at most one entry per byte left, and every
      entry names a track other than the first and the last. */
  function M3uTable(card: Card, path: string, data: seq<char>, pos: nat, buf: seq<char>): (t: seq<int>)
    requires pos <= |data| && |buf| == BufferSize
    decreases |data| - pos
    ensures |t| <= |data| - pos
    ensures forall i :: 0 <= i < |t| ==> 0 < t[i] && t[i] + 1 < |Tracks(card, path)|
  {
    if pos == |data| then []
    else
      var (b, next) := ReadLine(data, pos, buf);
      LineEntry(card, path, b) + M3uTable(card, path, data, next, b)
  }

  /** The table `0, 1, ..., n-1`. */
  function Identity(n: nat): seq<int>
  {
    seq(n, i => i)
  }

  /** The track table `switchAlbum` builds for an album directory: every
      entry names a track of the album, and with a playlist file the first
      track is never among them. */
  function Table(card: Card, path: string): (t: seq<int>)
    ensures forall i :: 0 <= i < |t| ==> 0 <= t[i] < |Tracks(card, path)|
    ensures PlaylistFile(card, path).Some? ==> forall i :: 0 <= i < |t| ==> t[i] != 0
  {
    match PlaylistFile(card, path)
    case Some(file) => M3uTable(card, path, Contents(card, file.0), 0, file.1)
    case None => Identity(|Tracks(card, path)|)
  }

  /** The card fits the fixed tables: at most MAX_ALBUMS albums and at most
      MAX_TRACKS table entries per album (the source does not check either). */
  ghost predicate CardOk(card: Card)
  {
    |Albums(card)| <= MaxAlbums
    && forall k :: 0 <= k < |Albums(card)| ==> |Table(card, AlbumPath(Albums(card)[k]))| <= MaxTracks
  }

  // ---------------------------------------------------------------------
  // The player as a value
  // ---------------------------------------------------------------------

  datatype SDState = AlbumMenu | AlbumPlayback

  datatype Player = Player(currentAlbum: int, currentTrack: int, maxAlbum: int, maxTrack: int,
                           table: seq<int>, state: SDState)

  predicate Wf(p: Player)
  {
    |p.table| == p.maxTrack
  }

  /** `switchAlbum(k)`: on an existing album, it becomes current and its
      table is built; otherwise nothing changes. Returns the album path. */
  function Switch(card: Card, p: Player, k: int): (r: (Player, Option<string>))
    requires Wf(p)
    ensures Wf(r.0)
  {
    match AlbumPathAt(card, k)
    case None => (p, None)
    case Some(path) =>
      var t := Table(card, path);
      (p.(currentAlbum := k, maxTrack := |t|, table := t), Some(path))
  }

  /** The player right after construction: albums counted, album 0 switched to. */
  function Initial(card: Card): Player
  {
    Switch(card, Player(0, 0, |Albums(card)|, 0, [], AlbumMenu), 0).0
  }

  function TrackPath(path: string, name: string): string
  {
    Bounded(path + "/" + name, BufferSize)
  }

  /** `play(albumIndex, trackIndex, reset)`, with `ps` the playlist state
      `getState()` reports. */
  function PlaySpec(card: Card, context: Handle, p: Player, albumIndex: int, trackIndex: int,
                    reset: bool, ps: PlaybackState): (r: (Player, seq<PlaylistCall>))
    requires Wf(p)
    ensures Wf(r.0)
  {
    if albumIndex < 0 || albumIndex >= p.maxAlbum then (p, [])
    else
      var (p1, path) := ChooseAlbum(card, p, albumIndex, trackIndex);
      PlayTrackSpec(card, context, p1, path, trackIndex, reset, ps)
  }

  /** The album part of `play` (sdcard.cpp:258-265): another album is
      switched to and its current track reset to the requested one, or 0. */
  function ChooseAlbum(card: Card, p: Player, albumIndex: int, trackIndex: int): (r: (Player, Option<string>))
    requires Wf(p)
    ensures Wf(r.0) && r.0.state == p.state
  {
    if albumIndex != p.currentAlbum then
      var (q, path) := Switch(card, p, albumIndex);
      (q.(currentTrack := if trackIndex >= 0 then trackIndex else 0), path)
    else (p, AlbumPathAt(card, albumIndex))
  }

  /** The track part of `play` (sdcard.cpp:267-301) in the album at `path`. */
  function PlayTrackSpec(card: Card, context: Handle, p1: Player, path: Option<string>, trackIndex: int,
                         reset: bool, ps: PlaybackState): (r: (Player, seq<PlaylistCall>))
    requires Wf(p1)
    ensures Wf(r.0)
  {
    if path.None? || trackIndex < 0 || trackIndex >= p1.maxTrack then (p1, [])
    else
      var filename := TrackNameAt(card, path.value, p1.table[trackIndex]);
      var clear := if reset && ps != Stopped then [StopAndClearCall] else [];
      match filename
      case None => (p1, clear)
      case Some(name) =>
        (p1.(currentTrack := trackIndex, state := AlbumPlayback),
         clear + [RegisterEndCall(SdPlaylistEnd, Some(context)), AddCall(TrackPath(path.value, name)), PlayCall])
  }

  /** `%s` of a possibly NULL string. */
  function PathText(path: Option<string>): string
  {
    match path
    case None => "(null)"
    case Some(s) => s
  }

  /** The number announcement `snprintf(buffer, 128, "/system/%d.mp3", n)`. */
  function NumberFile(n: int): string
  {
    Bounded("/system/" + FormatInt(n) + ".mp3", NumberBufferSize)
  }

  /** The files `announce(albumIndex, trackIndex)` enqueues. */
  function AnnounceNames(card: Card, albumIndex: int, trackIndex: int): seq<string>
  {
    if trackIndex < 0 then
      var announcer := Bounded(PathText(AlbumPathAt(card, albumIndex)) + "/album.mp3", BufferSize);
      if !Exists(card, announcer) then ["/system/album.mp3", NumberFile(albumIndex + 1)]
      else [announcer]
    else ["/system/track.mp3", NumberFile(trackIndex + 1)]
  }

  function AnnounceCalls(card: Card, albumIndex: int, trackIndex: int): seq<PlaylistCall>
  {
    [StopAndClearCall] + AddsOf(AnnounceNames(card, albumIndex, trackIndex)) + [PlayCall]
  }

  /** One step back: below 0 it wraps to count - 1 or clamps to 0. From a
      position in [0, count) it stays there: with looping it is the step
      modulo count, without it stops at 0. */
  function StepBack(i: int, count: int, loop: bool): (j: int)
    ensures 0 <= i < count ==> 0 <= j < count
    ensures 0 <= i < count && loop ==> j == (i - 1) % count
    ensures 0 <= i < count && !loop ==> j == (if i == 0 then 0 else i - 1)
  {
    assert 0 <= i < count ==> (i - 1) % count == if i == 0 then count - 1 else i - 1 by {
      if 0 <= i < count {
        WrapMod(i - 1, count);
      }
    }
    if i - 1 < 0 then (if loop then count - 1 else 0) else i - 1
  }

  /** One step forward: at count it wraps to 0 or clamps to count - 1. From
      a position in [0, count) it stays there: with looping it is the step
      modulo count, without it stops at count - 1. */
  function StepForward(i: int, count: int, loop: bool): (j: int)
    ensures 0 <= i < count ==> 0 <= j < count
    ensures 0 <= i < count && loop ==> j == (i + 1) % count
    ensures 0 <= i < count && !loop ==> j == (if i == count - 1 then i else i + 1)
  {
    assert 0 <= i < count ==> (i + 1) % count == if i == count - 1 then 0 else i + 1 by {
      if 0 <= i < count {
        WrapMod(i + 1, count);
      }
    }
    if i + 1 >= count then (if loop then 0 else count - 1) else i + 1
  }

  /** The playback tail shared by previous, next and pause: optionally
      announce the current track, then play it. */
  function AnnounceAndPlaySpec(card: Card, context: Handle, p: Player, announce: bool, ps: PlaybackState)
    : (r: (Player, seq<PlaylistCall>))
    requires Wf(p)
    ensures Wf(r.0)
  {
    var ca := if announce then AnnounceCalls(card, p.currentAlbum, p.currentTrack) else [];
    var (q, cp) := PlaySpec(card, context, p, p.currentAlbum, p.currentTrack, false, StateAfter(ps, ca));
    (q, ca + cp)
  }

  /** The playlist reset `previous` and `next` start with. */
  function UnpauseCalls(ps: PlaybackState): seq<PlaylistCall>
  {
    if ps == Paused then [StopAndClearCall] else []
  }

  /** `previous(announce, loop)`. */
  function PreviousSpec(card: Card, context: Handle, p: Player, announce: bool, loop: bool, ps: PlaybackState)
    : (r: (Player, bool, seq<PlaylistCall>))
    requires Wf(p)
    ensures Wf(r.0)
  {
    var c0 := UnpauseCalls(ps);
    if p.state == AlbumMenu then
      var a := StepBack(p.currentAlbum, p.maxAlbum, loop);
      (p.(currentAlbum := a), true, c0 + [StopAndClearCall] + AnnounceCalls(card, a, -1))
    else if p.currentTrack - 1 < 0 && !loop then
      (p.(currentTrack := 0), false, c0)
    else
      var (q, c) := AnnounceAndPlaySpec(card, context, p.(currentTrack := StepBack(p.currentTrack, p.maxTrack, loop)),
                                    announce, StateAfter(ps, c0));
      (q, true, c0 + c)
  }

  /** `next(announce, loop)` as written: in playback it sets the track to 0
      (loop) or to the last track and fails (no loop), whatever the current one. */
  function NextSpec(card: Card, context: Handle, p: Player, announce: bool, loop: bool, ps: PlaybackState)
    : (r: (Player, bool, seq<PlaylistCall>))
    requires Wf(p)
    ensures Wf(r.0)
  {
    var c0 := UnpauseCalls(ps);
    if p.state == AlbumMenu then
      var a := StepForward(p.currentAlbum, p.maxAlbum, loop);
      (p.(currentAlbum := a), true, c0 + AnnounceCalls(card, a, -1))
    else if !loop then
      (p.(currentTrack := p.maxTrack - 1), false, c0)
    else
      var (q, c) := AnnounceAndPlaySpec(card, context, p.(currentTrack := 0), announce, StateAfter(ps, c0));
      (q, true, c0 + c)
  }

  /** `next` as evidently intended: in playback, step to the following track,
      and only past the last one wrap (loop) or fail (no loop). */
  function NextIntended(card: Card, context: Handle, p: Player, announce: bool, loop: bool, ps: PlaybackState)
    : (r: (Player, bool, seq<PlaylistCall>))
    requires Wf(p)
    ensures Wf(r.0)
  {
    var c0 := UnpauseCalls(ps);
    if p.state == AlbumMenu then
      var a := StepForward(p.currentAlbum, p.maxAlbum, loop);
      (p.(currentAlbum := a), true, c0 + AnnounceCalls(card, a, -1))
    else if p.currentTrack + 1 >= p.maxTrack && !loop then
      (p.(currentTrack := p.maxTrack - 1), false, c0)
    else
      var (q, c) := AnnounceAndPlaySpec(card, context, p.(currentTrack := StepForward(p.currentTrack, p.maxTrack, loop)),
                                    announce, StateAfter(ps, c0));
      (q, true, c0 + c)
  }

  /** `pause()`: from the album menu, start the album's first track; in
      playback, toggle the playlist when it is playing or paused. */
  function PauseSpec(card: Card, context: Handle, p: Player, ps: PlaybackState): (r: (Player, seq<PlaylistCall>))
    requires Wf(p)
    ensures Wf(r.0)
  {
    if p.state == AlbumMenu then
      var (q, c) := AnnounceAndPlaySpec(card, context, p.(currentTrack := 0, state := AlbumPlayback), true,
                                    StateAfter(ps, [StopAndClearCall]));
      (q, [StopAndClearCall] + c)
    else (p, if ps == Playing || ps == Paused then [PauseCall] else [])
  }

  /** `reset()`, which `sdEnter` calls: back to the first album and track,
      table and state kept, announcing that album (clear, its files, play). */
  function ResetSpec(card: Card, p: Player): (r: (Player, seq<PlaylistCall>))
    ensures r.0.currentAlbum == 0 && r.0.currentTrack == 0
    ensures r.0.state == p.state && r.0.table == p.table && r.0.maxTrack == p.maxTrack && r.0.maxAlbum == p.maxAlbum
    ensures |r.1| >= 2 && r.1[0] == StopAndClearCall && r.1[|r.1| - 1] == PlayCall
    ensures forall i :: 0 < i < |r.1| - 1 ==> r.1[i].AddCall?
  {
    (p.(currentAlbum := 0, currentTrack := 0), AnnounceCalls(card, 0, -1))
  }

  /** `setState(s)`: the state becomes `s`, nothing else changes, and calls
      are made exactly when it leaves playback for the menu: the album's
      announcement. */
  function SetStateSpec(card: Card, p: Player, s: SDState): (r: (Player, seq<PlaylistCall>))
    ensures r.0.state == s && r.0.(state := p.state) == p
    ensures r.1 != [] <==> p.state == AlbumPlayback && s == AlbumMenu
    ensures r.1 != [] ==> r.1 == AnnounceCalls(card, p.currentAlbum, -1)
  {
    (p.(state := s), if p.state == AlbumPlayback && s == AlbumMenu then AnnounceCalls(card, p.currentAlbum, -1) else [])
  }

  /** `sdLeave`: the menu may be left exactly from the album menu, and then
      nothing changes; from playback the player returns to the album menu
      with the album's announcement. */
  function LeaveSpec(card: Card, p: Player): (r: (Player, bool, seq<PlaylistCall>))
    ensures r.0.state == AlbumMenu && (r.1 <==> p.state == AlbumMenu)
    ensures r.1 ==> r.0 == p && r.2 == []
    ensures !r.1 ==> r.0 == p.(state := AlbumMenu) && r.2 == AnnounceCalls(card, p.currentAlbum, -1)
  {
    if p.state == AlbumMenu then (p, true, [])
    else
      var (q, c) := SetStateSpec(card, p, AlbumMenu);
      (q, false, c)
  }

  const StoppedFile := "/system/stopped.mp3"

  /** `sdPlaylistEnd`: try the next track without announcing or looping;
      when that fails, play the "stopped" notice. */
  function PlaylistEndSpec(card: Card, context: Handle, p: Player, ps: PlaybackState): (r: (Player, seq<PlaylistCall>))
    requires Wf(p)
    ensures Wf(r.0)
  {
    var (q, ok, c) := NextSpec(card, context, p, false, false, ps);
    (q, if ok then c else c + [AddCall(StoppedFile), PlayCall])
  }

  /** `sdPlaylistEnd` over the intended `next`. */
  function PlaylistEndIntended(card: Card, context: Handle, p: Player, ps: PlaybackState): (r: (Player, seq<PlaylistCall>))
    requires Wf(p)
    ensures Wf(r.0)
  {
    var (q, ok, c) := NextIntended(card, context, p, false, false, ps);
    (q, if ok then c else c + [AddCall(StoppedFile), PlayCall])
  }

  // ---------------------------------------------------------------------
  // Lemmas about the player
  // ---------------------------------------------------------------------

  /** With looping, a step back undoes a step forward and the other way round,
      and both stay within [0, count). */
  lemma StepsAreInverse(i: int, count: int)
    requires 0 <= i < count
    ensures 0 <= StepForward(i, count, true) < count && 0 <= StepBack(i, count, true) < count
    ensures StepBack(StepForward(i, count, true), count, true) == i
    ensures StepForward(StepBack(i, count, true), count, true) == i
  {
  }

  /** In the album menu, next then previous (both looping) restores the
      player, and the album stays in range. */
  lemma MenuNextThenPrevious(card: Card, context: Handle, p: Player, announce: bool, ps: PlaybackState, ps': PlaybackState)
    requires Wf(p) && p.state == AlbumMenu && 0 <= p.currentAlbum < p.maxAlbum
    ensures var (q, ok, _) := NextSpec(card, context, p, announce, true, ps);
            ok && q.state == AlbumMenu && 0 <= q.currentAlbum < q.maxAlbum
            && PreviousSpec(card, context, q, announce, true, ps').0 == p
  {
    StepsAreInverse(p.currentAlbum, p.maxAlbum);
  }

  /** Browsing albums in the menu moves only the album index: the track
      table of the album switched to last stays in place. */
  lemma MenuBrowsingKeepsTable(card: Card, context: Handle, p: Player, announce: bool, loop: bool, ps: PlaybackState)
    requires Wf(p) && p.state == AlbumMenu
    ensures var q := NextSpec(card, context, p, announce, loop, ps).0;
            q == p.(currentAlbum := StepForward(p.currentAlbum, p.maxAlbum, loop))
    ensures var q := PreviousSpec(card, context, p, announce, loop, ps).0;
            q == p.(currentAlbum := StepBack(p.currentAlbum, p.maxAlbum, loop))
  {
  }

  /** Playing the current album's current track keeps album, track and table. */
  lemma PlayCurrentKeepsPosition(card: Card, context: Handle, p: Player, ps: PlaybackState)
    requires Wf(p)
    ensures var q := PlaySpec(card, context, p, p.currentAlbum, p.currentTrack, false, ps).0;
            q.currentAlbum == p.currentAlbum && q.currentTrack == p.currentTrack
            && q.table == p.table && q.maxAlbum == p.maxAlbum
  {
  }

  /** `play` enqueues nothing for an album outside [0, maxAlbum) (and then
      changes nothing) or a track outside [0, maxTrack). */
  lemma PlayOutOfRangeEnqueuesNothing(card: Card, context: Handle, p: Player, albumIndex: int, trackIndex: int,
                                      reset: bool, ps: PlaybackState)
    requires Wf(p)
    ensures albumIndex < 0 || albumIndex >= p.maxAlbum ==>
              PlaySpec(card, context, p, albumIndex, trackIndex, reset, ps) == (p, [])
    ensures var q := PlaySpec(card, context, p, albumIndex, trackIndex, reset, ps).0;
            trackIndex < 0 || trackIndex >= q.maxTrack ==> PlaySpec(card, context, p, albumIndex, trackIndex, reset, ps).1 == []
  {
    if 0 <= albumIndex < p.maxAlbum && albumIndex != p.currentAlbum {
      var (q, path) := Switch(card, p, albumIndex);
      var q1 := q.(currentTrack := if trackIndex >= 0 then trackIndex else 0);
      assert q1.maxTrack == PlaySpec(card, context, p, albumIndex, trackIndex, reset, ps).0.maxTrack;
    }
  }

  /** A track that resolves to a file is queued as "path/name" behind the end
      callback and followed by `play`, and the player goes to playback. */
  lemma PlayQueuesTrack(card: Card, context: Handle, p: Player, trackIndex: int, ps: PlaybackState)
    requires Wf(p) && p.maxAlbum == |Albums(card)| && 0 <= p.currentAlbum < p.maxAlbum
    requires 0 <= trackIndex < p.maxTrack
    requires TrackNameAt(card, AlbumPathAt(card, p.currentAlbum).value, p.table[trackIndex]).Some?
    ensures var path := AlbumPathAt(card, p.currentAlbum).value;
            var name := TrackNameAt(card, path, p.table[trackIndex]).value;
            PlaySpec(card, context, p, p.currentAlbum, trackIndex, false, ps)
            == (p.(currentTrack := trackIndex, state := AlbumPlayback),
                [RegisterEndCall(SdPlaylistEnd, Some(context)), AddCall(TrackPath(path, name)), PlayCall])
  {
    var path := AlbumPathAt(card, p.currentAlbum);
    assert path.Some?;
    var filename := TrackNameAt(card, path.value, p.table[trackIndex]);
    var r := PlaySpec(card, context, p, p.currentAlbum, trackIndex, false, ps);
    assert r == (p.(currentTrack := trackIndex, state := AlbumPlayback),
                 [] + [RegisterEndCall(SdPlaylistEnd, Some(context)), AddCall(TrackPath(path.value, filename.value)), PlayCall]);
    assert [] + [RegisterEndCall(SdPlaylistEnd, Some(context)), AddCall(TrackPath(path.value, filename.value)), PlayCall]
        == [RegisterEndCall(SdPlaylistEnd, Some(context)), AddCall(TrackPath(path.value, filename.value)), PlayCall];
  }

  /** Without a playlist file, switching to an album makes the table the
      identity over its tracks. */
  lemma SwitchWithoutPlaylistFile(card: Card, p: Player, k: int)
    requires Wf(p) && 0 <= k < |Albums(card)|
    requires PlaylistFile(card, AlbumPath(Albums(card)[k])).None?
    ensures var (q, path) := Switch(card, p, k);
            path == Some(AlbumPath(Albums(card)[k])) && q.currentAlbum == k
            && q.maxTrack == |Tracks(card, path.value)|
            && forall i :: 0 <= i < q.maxTrack ==> q.table[i] == i
  {
  }

  /** With the identity table, position t of the current album plays its
      t-th track. */
  lemma IdentityTablePlaysInOrder(card: Card, context: Handle, p: Player, t: int, ps: PlaybackState)
    requires Wf(p) && p.maxAlbum == |Albums(card)| && 0 <= p.currentAlbum < p.maxAlbum
    requires var path := AlbumPathAt(card, p.currentAlbum).value;
             PlaylistFile(card, path).None? && p.table == Table(card, path)
    requires 0 <= t < p.maxTrack
    ensures var path := AlbumPathAt(card, p.currentAlbum).value;
            PlaySpec(card, context, p, p.currentAlbum, t, false, ps).1
            == [RegisterEndCall(SdPlaylistEnd, Some(context)), AddCall(TrackPath(path, Tracks(card, path)[t].name)), PlayCall]
  {
    var path := AlbumPathAt(card, p.currentAlbum).value;
    assert p.table[t] == t;
    PlayQueuesTrack(card, context, p, t, ps);
  }

  /** An announcement leaves exactly its files queued, in order, with the
      playlist in its Reset state. */
  lemma AnnounceQueuesNames(card: Card, albumIndex: int, trackIndex: int, s: Snapshot)
    requires Consistent(s) && |s.slots| >= 3
    ensures var r := ApplyCalls(s, AnnounceCalls(card, albumIndex, trackIndex));
            Pending(r) == AnnounceNames(card, albumIndex, trackIndex) && r.state == Reset
  {
    ClearThenEnqueue(s, AnnounceNames(card, albumIndex, trackIndex));
  }

  /** The album announcement is the album's own `album.mp3` when it has
      one; otherwise the generic notice followed by the album's number. */
  lemma AlbumAnnouncement(card: Card, k: int)
    requires 0 <= k < |Albums(card)|
    ensures var own := AlbumPath(Albums(card)[k]) + "/album.mp3";
            |own| < BufferSize && Exists(card, own) ==> AnnounceNames(card, k, -1) == [own]
    ensures var own := Bounded(AlbumPath(Albums(card)[k]) + "/album.mp3", BufferSize);
            !Exists(card, own) ==> AnnounceNames(card, k, -1) == ["/system/album.mp3", NumberFile(k + 1)]
  {
  }

  /** `reset` (on entering the player) returns to the first album and
      leaves its announcement queued. */
  lemma ResetAnnouncesFirstAlbum(card: Card, p: Player, s: Snapshot)
    requires Consistent(s) && |s.slots| >= 3
    ensures var (q, calls) := ResetSpec(card, p);
            q.currentAlbum == 0 && q.currentTrack == 0 && q.state == p.state
            && Pending(ApplyCalls(s, calls)) == AnnounceNames(card, 0, -1)
  {
    AnnounceQueuesNames(card, 0, -1, s);
  }

  /** In the album menu, `pause` starts playback of the current album from
      track 0 after a clear and the track announcement. */
  lemma PauseFromMenuStartsAlbum(card: Card, context: Handle, p: Player, ps: PlaybackState)
    requires Wf(p) && p.state == AlbumMenu
    ensures var (q, calls) := PauseSpec(card, context, p, ps);
            q.state == AlbumPlayback && q.currentTrack == 0 && q.currentAlbum == p.currentAlbum && q.table == p.table
            && calls[..1 + |AnnounceCalls(card, p.currentAlbum, 0)|] == [StopAndClearCall] + AnnounceCalls(card, p.currentAlbum, 0)
  {
    var p0 := p.(currentTrack := 0, state := AlbumPlayback);
    var ca := AnnounceCalls(card, p.currentAlbum, 0);
    PlayCurrentKeepsPosition(card, context, p0, StateAfter(StateAfter(ps, [StopAndClearCall]), ca));
    var (q, c) := AnnounceAndPlaySpec(card, context, p0, true, StateAfter(ps, [StopAndClearCall]));
    assert c[..|ca|] == ca;
    assert ([StopAndClearCall] + c)[..1 + |ca|] == [StopAndClearCall] + c[..|ca|];
  }

  /** In playback, `pause` toggles a playing or paused playlist and
      otherwise does nothing. */
  lemma PauseInPlaybackToggles(card: Card, context: Handle, p: Player, ps: PlaybackState)
    requires Wf(p) && p.state == AlbumPlayback
    ensures var (q, calls) := PauseSpec(card, context, p, ps);
            q == p
            && (ps == Playing ==> StateAfter(ps, calls) == Paused)
            && (ps == Paused ==> StateAfter(ps, calls) == Playing)
            && (ps != Playing && ps != Paused ==> calls == [])
  {
  }

  /** `previous` in playback steps the track back and stays in range; without
      looping it fails at track 0. */
  lemma PreviousInPlayback(card: Card, context: Handle, p: Player, announce: bool, loop: bool, ps: PlaybackState)
    requires Wf(p) && p.state == AlbumPlayback && 0 <= p.currentTrack < p.maxTrack
    ensures var (q, ok, calls) := PreviousSpec(card, context, p, announce, loop, ps);
            (ok <==> loop || p.currentTrack > 0)
            && 0 <= q.currentTrack < q.maxTrack && q.currentAlbum == p.currentAlbum && q.table == p.table
            && (ok ==> q.currentTrack == StepBack(p.currentTrack, p.maxTrack, loop))
            && (!ok ==> q.currentTrack == 0 && calls == UnpauseCalls(ps))
  {
    if loop || p.currentTrack > 0 {
      var p0 := p.(currentTrack := StepBack(p.currentTrack, p.maxTrack, loop));
      var ca := if announce then AnnounceCalls(card, p0.currentAlbum, p0.currentTrack) else [];
      PlayCurrentKeepsPosition(card, context, p0, StateAfter(StateAfter(ps, UnpauseCalls(ps)), ca));
    }
  }

  // ---------------------------------------------------------------------
  // Findings
  // ---------------------------------------------------------------------

  /** As written, the end of every track in playback makes `next(false,
      false)` fail: the player jumps to the last track and the playlist gets
      the "stopped" notice, so an album never plays past its first track. */
  lemma EndOfTrackAlwaysStops(card: Card, context: Handle, p: Player, ps: PlaybackState)
    requires Wf(p) && p.state == AlbumPlayback
    ensures PlaylistEndSpec(card, context, p, ps)
            == (p.(currentTrack := p.maxTrack - 1), UnpauseCalls(ps) + [AddCall(StoppedFile), PlayCall])
  {
  }

  /** With loop, as the `sdNext` key handler calls it (sdcard.cpp:438-440),
      next in playback restarts the album: the result is that of announcing
      and playing position 0, it lands on position 0 of the same album with
      the same table, and the current track makes no difference. */
  lemma NextInPlaybackRestartsAlbum(card: Card, context: Handle, p: Player, t: int, announce: bool, ps: PlaybackState)
    requires Wf(p) && p.state == AlbumPlayback
    ensures var (q, ok, calls) := NextSpec(card, context, p, announce, true, ps);
            var c0 := UnpauseCalls(ps);
            var (q0, c) := AnnounceAndPlaySpec(card, context, p.(currentTrack := 0), announce, StateAfter(ps, c0));
            ok && q == q0 && calls == c0 + c
    ensures var q := NextSpec(card, context, p, announce, true, ps).0;
            q.currentTrack == 0 && q.currentAlbum == p.currentAlbum && q.table == p.table
    ensures NextSpec(card, context, p.(currentTrack := t), announce, true, ps)
            == NextSpec(card, context, p, announce, true, ps)
  {
  }

  /** With the intended `next`, the end of a track that has a successor
      queues that successor, and the "stopped" notice is not queued. */
  lemma EndOfTrackPlaysNextIntended(card: Card, context: Handle, p: Player, ps: PlaybackState)
    requires Wf(p) && p.state == AlbumPlayback && p.maxAlbum == |Albums(card)| && 0 <= p.currentAlbum < p.maxAlbum
    requires 0 <= p.currentTrack && p.currentTrack + 1 < p.maxTrack
    requires TrackNameAt(card, AlbumPathAt(card, p.currentAlbum).value, p.table[p.currentTrack + 1]).Some?
    ensures var path := AlbumPathAt(card, p.currentAlbum).value;
            var name := TrackNameAt(card, path, p.table[p.currentTrack + 1]).value;
            PlaylistEndIntended(card, context, p, ps)
            == (p.(currentTrack := p.currentTrack + 1),
                UnpauseCalls(ps) + [RegisterEndCall(SdPlaylistEnd, Some(context)), AddCall(TrackPath(path, name)), PlayCall])
  {
    var p0 := p.(currentTrack := p.currentTrack + 1);
    PlayQueuesTrack(card, context, p0, p0.currentTrack, StateAfter(ps, UnpauseCalls(ps)));
  }

  /** As written, loop clears the end context after sdPlaylistEnd returns.
      So even the intended sdPlaylistEnd, which queues the next track and
      registers itself again with the player as its context, leaves itself
      registered with no context: at the end of that track it is called
      with NULL. With the context cleared before the call, the
      registration keeps the player. The callback runs on a stopped
      playlist, so `getState()` reports Stopped inside it. */
  lemma ReRegistrationLosesPlayer(card: Card, context: Handle, p: Player, s: Snapshot,
                                  lockAcquired: bool, outcome: StepOutcome)
    requires Wf(p) && p.state == AlbumPlayback && p.maxAlbum == |Albums(card)| && 0 <= p.currentAlbum < p.maxAlbum
    requires 0 <= p.currentTrack && p.currentTrack + 1 < p.maxTrack
    requires TrackNameAt(card, AlbumPathAt(card, p.currentAlbum).value, p.table[p.currentTrack + 1]).Some?
    requires Consistent(s) && !s.decoder && s.state != Stopped && s.state != Reset && Pending(s) == []
    requires s.endCallback == Some(SdPlaylistEnd) && s.endContext == Some(context)
    ensures var reaction := PlaylistEndIntended(card, context, p, Stopped).1;
            var (t, fired) := Tick(s, lockAcquired, outcome, reaction);
            fired == Some(Invocation(SdPlaylistEnd, Some(context)))
            && t.endCallback == Some(SdPlaylistEnd) && t.endContext.None?
    ensures var reaction := PlaylistEndIntended(card, context, p, Stopped).1;
            var t := TickIntended(s, lockAcquired, outcome, reaction).0;
            t.endCallback == Some(SdPlaylistEnd) && t.endContext == Some(context)
  {
    EndOfTrackPlaysNextIntended(card, context, p, Stopped);
    var path := AlbumPathAt(card, p.currentAlbum).value;
    var name := TrackNameAt(card, path, p.table[p.currentTrack + 1]).value;
    var reaction := PlaylistEndIntended(card, context, p, Stopped).1;
    assert UnpauseCalls(Stopped) == [];
    assert reaction == [RegisterEndCall(SdPlaylistEnd, Some(context)), AddCall(TrackPath(path, name)), PlayCall];
    var tail := reaction[1..];
    assert tail == [AddCall(TrackPath(path, name)), PlayCall] && tail[1..] == [PlayCall] && tail[1..][1..] == [];
    var registered := (Some(SdPlaylistEnd), Some(context));
    assert LastRegistration(registered.0, registered.1, tail[1..][1..]) == registered;
    assert tail[1..][0] == PlayCall;
    assert LastRegistration(registered.0, registered.1, tail[1..]) == registered;
    assert tail[0] == AddCall(TrackPath(path, name));
    assert LastRegistration(registered.0, registered.1, tail) == registered;
    assert reaction[0] == RegisterEndCall(SdPlaylistEnd, Some(context));
    assert LastRegistration(None, Some(context), reaction) == registered;
    assert LastRegistration(None, None, reaction) == registered;
    DrainStops(s, lockAcquired, outcome, reaction);
  }

  /** A C string is the bytes before the first NUL. */
  lemma {:induction false} CStringTerminated(s: string, rest: seq<char>)
    requires '\0' !in s
    ensures CString(s + ['\0'] + rest) == s
    decreases |s|
  {
    if s != [] {
      CStringTerminated(s[1..], rest);
      assert (s + ['\0'] + rest)[1..] == s[1..] + ['\0'] + rest;
    }
  }

  /** As written, a playlist line shorter than what the buffer held before
      keeps the older bytes behind it: for the album "/a", the line "x.mp3"
      is looked up as "x.mp3bum.m3u". */
  lemma ShortLineKeepsStaleBytes()
    ensures var card := Card(map[], map["/a/album.m3u" := "x.mp3\n"]);
            var file := PlaylistFile(card, "/a");
            file.Some? && Contents(card, file.value.0) == "x.mp3\n"
            && CString(ReadLine("x.mp3\n", 0, file.value.1).0) == "x.mp3bum.m3u"
  {
    var card := Card(map[], map["/a/album.m3u" := "x.mp3\n"]);
    assert "/a" + "/album.m3u" == "/a/album.m3u";
    assert Bounded("/a" + "/album.m3u", BufferSize) == "/a/album.m3u";
    var buf := PlaylistFile(card, "/a").value.1;
    assert buf == "/a/album.m3u" + ['\0'] + Nuls(BufferSize)[13..];
    var data := "x.mp3\n";
    var r := ReadBytesUntil(data, 0, '\n', BufferSize);
    assert data[5] == '\n';
    assert |r.0| == 5;
    assert r.0 == "x.mp3";
    var b := ReadLine(data, 0, buf).0;
    assert b == Overlay(buf, "x.mp3");
    assert b == "x.mp3bum.m3u" + ['\0'] + Nuls(BufferSize)[13..];
    CStringTerminated("x.mp3bum.m3u", Nuls(BufferSize)[13..]);
  }

  /** The read loop as evidently intended: the last read is terminated at the
      number of bytes it stored. */
  function ReadLineIntended(data: seq<char>, pos: nat, buf: seq<char>): (r: (seq<char>, nat))
    requires pos <= |data| && |buf| == BufferSize
    ensures |r.0| == BufferSize && pos <= r.1 <= |data|
    decreases |data| - pos
  {
    var (got, next) := ReadBytesUntil(data, pos, '\n', BufferSize);
    if |got| == BufferSize then ReadLineIntended(data, next, Overlay(buf, got))
    else (Overlay(buf, got + ['\0']), next)
  }

  /** With the intended termination, a line that fits the buffer is looked
      up as exactly its own text, whatever the buffer held before. */
  lemma IntendedLineIsLookedUpAsRead(data: seq<char>, pos: nat, buf: seq<char>)
    requires pos <= |data| && |buf| == BufferSize
    requires var line := ReadBytesUntil(data, pos, '\n', BufferSize).0;
             |line| < BufferSize && '\0' !in line
    ensures CString(ReadLineIntended(data, pos, buf).0) == ReadBytesUntil(data, pos, '\n', BufferSize).0
  {
    var line := ReadBytesUntil(data, pos, '\n', BufferSize).0;
    var b := ReadLineIntended(data, pos, buf).0;
    assert b == line + ['\0'] + buf[|line| + 1..];
    CStringTerminated(line, buf[|line| + 1..]);
  }

  // ---------------------------------------------------------------------
  // The player
  // ---------------------------------------------------------------------

  class SDPlayer {
    const card: Card
    /** The player's own address, handed to the playlist as the callback context. */
    const context: Handle
    /** The track table: entry i is the track index that position i plays. */
    const shuffle: array<int>
    var currentAlbum: int
    var currentTrack: int
    var maxAlbum: int
    var maxTrack: int
    var state: SDState

    ghost predicate Valid()
      reads this
    {
      shuffle.Length == MaxTracks && CardOk(card)
      && maxAlbum == |Albums(card)| && 0 <= maxTrack <= MaxTracks
    }

    ghost function Model(): (p: Player)
      requires Valid()
      reads this, shuffle
      ensures Wf(p)
    {
      Player(currentAlbum, currentTrack, maxAlbum, maxTrack, shuffle[..maxTrack], state)
    }

    /** Counts the albums on the card, then switches to album 0. */
    constructor(card: Card, context: Handle)
      requires CardOk(card)
      ensures Valid() && this.card == card && this.context == context
      ensures Model() == Initial(card)
      ensures fresh(shuffle)
    {
      this.card := card;
      this.context := context;
      currentAlbum := 0;
      currentTrack := 0;
      shuffle := new int[MaxTracks];
      state := AlbumMenu;
      maxAlbum := 0;
      maxTrack := 0;
      var dir := Listing(card, "/");
      var count := 0;
      var i := 0;
      var finished := false;
      while !finished
        invariant 0 <= i <= |dir|
        invariant count == |Filter(AlbumKind, dir[..i])|
        invariant finished ==> i == |dir|
        decreases |dir| - i, !finished
      {
        if i == |dir| {
          finished := true;
        } else {
          var file := dir[i];
          FilterStep(AlbumKind, dir, i);
          i := i + 1;
          if IsAlbum(file) {
            count := count + 1;
          }
        }
      }
      assert dir[..i] == dir;
      maxAlbum := count;
      new;
      var _ := SwitchAlbum(0);
    }

    /** `pathOfAlbumAtIndex`: scan the root for the albumIndex-th album. */
    method PathOfAlbumAtIndex(albumIndex: int) returns (result: Option<string>)
      ensures result == AlbumPathAt(card, albumIndex)
    {
      var dir := Listing(card, "/");
      var index := 0;
      result := None;
      var i := 0;
      var finished := false;
      while !finished
        invariant 0 <= i <= |dir|
        invariant !finished ==> result.None? && index == |Filter(AlbumKind, dir[..i])| && !(0 <= albumIndex < index)
        invariant finished ==> result == AlbumPathAt(card, albumIndex)
        decreases |dir| - i, !finished
      {
        if i == |dir| {
          assert dir[..i] == dir;
          finished := true;
        } else {
          var file := dir[i];
          FilterStep(AlbumKind, dir, i);
          if IsAlbum(file) {
            if index == albumIndex {
              FilterAt(AlbumKind, dir, i);
              result := Some(AlbumPath(file));
              finished := true;
            } else {
              index := index + 1;
            }
          }
          i := i + 1;
        }
      }
    }

    /** `nameOfTrackAtIndex`: scan `path` for the trackIndex-th track. */
    method NameOfTrackAtIndex(path: string, trackIndex: int) returns (result: Option<string>)
      ensures result == TrackNameAt(card, path, trackIndex)
    {
      var dir := Listing(card, path);
      var index := 0;
      result := None;
      var i := 0;
      var finished := false;
      while !finished
        invariant 0 <= i <= |dir|
        invariant !finished ==> result.None? && index == |Filter(TrackKind, dir[..i])| && !(0 <= trackIndex < index)
        invariant finished ==> result == TrackNameAt(card, path, trackIndex)
        decreases |dir| - i, !finished
      {
        if i == |dir| {
          assert dir[..i] == dir;
          finished := true;
        } else {
          var file := dir[i];
          FilterStep(TrackKind, dir, i);
          if IsTrack(file) {
            if index == trackIndex {
              FilterAt(TrackKind, dir, i);
              result := Some(file.name);
              finished := true;
            } else {
              index := index + 1;
            }
          }
          i := i + 1;
        }
      }
    }

    /** `indexForFilenameAtPath`: the counter starts at -1 and counts the
        eligible files that do not match. */
    method IndexForFilenameAtPath(searchFilename: string, path: string) returns (index: int)
      ensures index == IndexAsWritten(Tracks(card, path), searchFilename)
    {
      var dir := Listing(card, path);
      var i := 0;
      var finished := false;
      index := -1;
      while !finished
        invariant 0 <= i <= |dir|
        invariant !finished ==> index == |Filter(TrackKind, dir[..i])| - 1
        invariant !finished ==> NoneMatch(Filter(TrackKind, dir[..i]), searchFilename)
        invariant finished ==> index == IndexAsWritten(Tracks(card, path), searchFilename)
        decreases |dir| - i, !finished
      {
        if i == |dir| {
          assert dir[..i] == dir;
          finished := true;
          index := -1;
        } else {
          var file := dir[i];
          if IsTrack(file) && EqualsIgnoreCase(searchFilename, file.name) {
            ScanHit(dir, i, searchFilename);
            finished := true;
          } else {
            ScanMiss(dir, i, searchFilename);
            if IsTrack(file) {
              index := index + 1;
            }
          }
          i := i + 1;
        }
      }
    }

    /** `switchAlbum`: make an existing album current and build its table. */
    method SwitchAlbum(albumIndex: int) returns (path: Option<string>)
      requires Valid()
      modifies this, shuffle
      ensures Valid()
      ensures (Model(), path) == Switch(card, old(Model()), albumIndex)
    {
      path := PathOfAlbumAtIndex(albumIndex);
      if path.None? {
        return;
      }
      assert |Table(card, path.value)| <= MaxTracks by {
        assert path.value == AlbumPath(Albums(card)[albumIndex]);
      }
      currentAlbum := albumIndex;
      maxTrack := 0;
      var file := PlaylistFile(card, path.value);
      if file.Some? {
        FillFromPlaylistFile(path.value, Contents(card, file.value.0), file.value.1);
      } else {
        FillIdentity(path.value);
      }
    }

    /** The playlist-file branch of `switchAlbum` (sdcard.cpp:192-208). */
    method FillFromPlaylistFile(path: string, data: seq<char>, buf0: seq<char>)
      requires Valid() && maxTrack == 0 && |buf0| == BufferSize
      requires |M3uTable(card, path, data, 0, buf0)| <= MaxTracks
      modifies `maxTrack, shuffle
      ensures Valid()
      ensures shuffle[..maxTrack] == M3uTable(card, path, data, 0, buf0)
    {
      ghost var total := M3uTable(card, path, data, 0, buf0);
      var buffer := buf0;
      var pos := 0;
      assert shuffle[..maxTrack] == [];
      while pos < |data|
        invariant 0 <= pos <= |data| && |buffer| == BufferSize
        invariant 0 <= maxTrack <= MaxTracks
        invariant shuffle[..maxTrack] + M3uTable(card, path, data, pos, buffer) == total
        decreases |data| - pos
      {
        ghost var before := shuffle[..maxTrack];
        ghost var rest := M3uTable(card, path, data, pos, buffer);
        var next;
        buffer, next := ReadInto(data, pos, buffer);
        ghost var entry := LineEntry(card, path, buffer);
        assert rest == entry + M3uTable(card, path, data, next, buffer);
        pos := next;
        assert |before| + |entry| <= MaxTracks by {
          assert |before + rest| <= MaxTracks;
        }
        AddLineEntry(path, buffer);
        Associative(before, entry, M3uTable(card, path, data, pos, buffer));
      }
      assert shuffle[..maxTrack] + [] == shuffle[..maxTrack];
    }

    /** One line of the playlist file (sdcard.cpp:199-206): a line that is
        not a comment and names a track other than the first is appended to
        the table. */
    method AddLineEntry(path: string, buffer: seq<char>)
      requires Valid() && |buffer| == BufferSize
      requires maxTrack + |LineEntry(card, path, buffer)| <= MaxTracks
      modifies `maxTrack, shuffle
      ensures Valid()
      ensures shuffle[..maxTrack] == old(shuffle[..maxTrack]) + LineEntry(card, path, buffer)
    {
      ghost var before := shuffle[..maxTrack];
      ghost var entry := LineEntry(card, path, buffer);
      if buffer[0] != '#' {
        var fileIndex := IndexForFilenameAtPath(CString(buffer), path);
        if fileIndex > 0 {
          assert entry == [fileIndex];
          shuffle[maxTrack] := fileIndex;
          maxTrack := maxTrack + 1;
          assert shuffle[..maxTrack] == before + entry;
        } else {
          assert entry == [];
          assert before + entry == before;
        }
      } else {
        assert before + entry == before;
      }
    }

    /** The read loops of sdcard.cpp:195-198 on the buffer. */
    method ReadInto(data: seq<char>, pos: nat, buf: seq<char>) returns (buffer: seq<char>, next: nat)
      requires pos < |data| && |buf| == BufferSize
      ensures (buffer, next) == ReadLine(data, pos, buf)
    {
      var read := ReadBytesUntil(data, pos, '\n', BufferSize);
      var got := read.0;
      next := read.1;
      buffer := Overlay(buf, got);
      while |got| == BufferSize
        invariant next <= |data| && |buffer| == BufferSize
        invariant ReadLine(data, pos, buf) == if |got| == BufferSize then ReadLine(data, next, buffer) else (buffer, next)
        decreases |data| - next + (if |got| == BufferSize then 1 else 0)
      {
        read := ReadBytesUntil(data, next, '\n', BufferSize);
        got := read.0;
        next := read.1;
        buffer := Overlay(buffer, got);
      }
    }

    /** The directory branch of `switchAlbum` (sdcard.cpp:209-242). */
    method FillIdentity(path: string)
      requires Valid() && maxTrack == 0
      requires |Tracks(card, path)| <= MaxTracks
      modifies `maxTrack, shuffle
      ensures Valid()
      ensures shuffle[..maxTrack] == Identity(|Tracks(card, path)|)
    {
      var dir := Listing(card, path);
      var i := 0;
      var finished := false;
      while !finished
        invariant 0 <= i <= |dir|
        invariant maxTrack == |Filter(TrackKind, dir[..i])| <= MaxTracks
        invariant forall j :: 0 <= j < maxTrack ==> shuffle[j] == j
        invariant finished ==> i == |dir|
        decreases |dir| - i, !finished
      {
        if i == |dir| {
          finished := true;
        } else {
          var file := dir[i];
          FilterStep(TrackKind, dir, i);
          if IsTrack(file) {
            FilterAt(TrackKind, dir, i);
            shuffle[maxTrack] := maxTrack;
            maxTrack := maxTrack + 1;
          }
          i := i + 1;
        }
      }
      assert dir[..i] == dir;
    }

    /** `play(albumIndex, trackIndex, reset)`; `ps` is what the playlist's
        `getState()` reports. */
    method Play(albumIndex: int, trackIndex: int, reset: bool, ps: PlaybackState) returns (calls: seq<PlaylistCall>)
      requires Valid()
      modifies this, shuffle
      ensures Valid()
      ensures (Model(), calls) == PlaySpec(card, context, old(Model()), albumIndex, trackIndex, reset, ps)
    {
      calls := [];
      if albumIndex < 0 || albumIndex >= maxAlbum {
        return;
      }
      var path := SelectAlbum(albumIndex, trackIndex);
      calls := PlayTrack(path, trackIndex, reset, ps);
    }

    /** The album part of `play`. */
    method SelectAlbum(albumIndex: int, trackIndex: int) returns (path: Option<string>)
      requires Valid() && 0 <= albumIndex < maxAlbum
      modifies this, shuffle
      ensures Valid()
      ensures (Model(), path) == ChooseAlbum(card, old(Model()), albumIndex, trackIndex)
    {
      ghost var p := Model();
      if albumIndex != currentAlbum {
        path := SwitchAlbum(albumIndex);
        currentTrack := if trackIndex >= 0 then trackIndex else 0;
        assert (Model(), path) == (Switch(card, p, albumIndex).0.(currentTrack := if trackIndex >= 0 then trackIndex else 0),
                                   Switch(card, p, albumIndex).1);
      } else {
        path := PathOfAlbumAtIndex(albumIndex);
        assert Model() == p;
      }
    }

    /** The track part of `play` in the album at `path`. */
    method PlayTrack(path: Option<string>, trackIndex: int, reset: bool, ps: PlaybackState) returns (calls: seq<PlaylistCall>)
      requires Valid()
      modifies `currentTrack, `state
      ensures Valid()
      ensures (Model(), calls) == PlayTrackSpec(card, context, old(Model()), path, trackIndex, reset, ps)
    {
      ghost var p1 := Model();
      calls := [];
      if path.None? {
        return;
      }
      if trackIndex < 0 || trackIndex >= maxTrack {
        return;
      }
      var filename := NameOfTrackAtIndex(path.value, shuffle[trackIndex]);
      assert filename == TrackNameAt(card, path.value, p1.table[trackIndex]);
      if filename.Some? {
        currentTrack := trackIndex;
      }
      if reset && ps != Stopped {
        calls := [StopAndClearCall];
      }
      if filename.Some? {
        calls := calls + [RegisterEndCall(SdPlaylistEnd, Some(context)),
                          AddCall(TrackPath(path.value, filename.value)), PlayCall];
        state := AlbumPlayback;
      }
    }

    /** `announce(albumIndex, trackIndex)`: clear the playlist, queue the
        album or track announcement and play. */
    method Announce(albumIndex: int, trackIndex: int) returns (calls: seq<PlaylistCall>)
      ensures calls == AnnounceCalls(card, albumIndex, trackIndex)
    {
      calls := [StopAndClearCall];
      if trackIndex < 0 {
        var path := PathOfAlbumAtIndex(albumIndex);
        var buffer := Bounded(PathText(path) + "/album.mp3", BufferSize);
        if !Exists(card, buffer) {
          buffer := NumberFile(albumIndex + 1);
          calls := calls + [AddCall("/system/album.mp3")];
        }
        calls := calls + [AddCall(buffer)];
      } else {
        calls := calls + [AddCall("/system/track.mp3"), AddCall(NumberFile(trackIndex + 1))];
      }
      calls := calls + [PlayCall];
    }

    /** Optionally announce the current track, then play it. */
    method AnnounceAndPlay(announce: bool, ps: PlaybackState) returns (calls: seq<PlaylistCall>)
      requires Valid()
      modifies this, shuffle
      ensures Valid()
      ensures (Model(), calls) == AnnounceAndPlaySpec(card, context, old(Model()), announce, ps)
    {
      calls := [];
      if announce {
        calls := Announce(currentAlbum, currentTrack);
      }
      var more := Play(currentAlbum, currentTrack, false, StateAfter(ps, calls));
      calls := calls + more;
    }

    /** `previous(announce, loop)`. */
    method Previous(announce: bool, loop: bool, ps: PlaybackState) returns (ok: bool, calls: seq<PlaylistCall>)
      requires Valid()
      modifies this, shuffle
      ensures Valid()
      ensures (Model(), ok, calls) == PreviousSpec(card, context, old(Model()), announce, loop, ps)
    {
      ghost var p := Model();
      calls := UnpauseCalls(ps);
      if state == AlbumMenu {
        currentAlbum := currentAlbum - 1;
        if currentAlbum < 0 {
          if loop {
            currentAlbum := maxAlbum - 1;
          } else {
            currentAlbum := 0;
          }
        }
        assert Model() == p.(currentAlbum := StepBack(p.currentAlbum, p.maxAlbum, loop));
        var a := Announce(currentAlbum, -1);
        calls := calls + [StopAndClearCall] + a;
      } else {
        currentTrack := currentTrack - 1;
        if currentTrack < 0 {
          if loop {
            currentTrack := maxTrack - 1;
          } else {
            currentTrack := 0;
            return false, calls;
          }
        }
        assert Model() == p.(currentTrack := StepBack(p.currentTrack, p.maxTrack, loop));
        var more := AnnounceAndPlay(announce, StateAfter(ps, calls));
        calls := calls + more;
      }
      ok := true;
    }

    /** `next(announce, loop)`, as written. */
    method Next(announce: bool, loop: bool, ps: PlaybackState) returns (ok: bool, calls: seq<PlaylistCall>)
      requires Valid()
      modifies this, shuffle
      ensures Valid()
      ensures (Model(), ok, calls) == NextSpec(card, context, old(Model()), announce, loop, ps)
    {
      ghost var p := Model();
      calls := UnpauseCalls(ps);
      if state == AlbumMenu {
        currentAlbum := currentAlbum + 1;
        if currentAlbum >= maxAlbum {
          if loop {
            currentAlbum := 0;
          } else {
            currentAlbum := maxAlbum - 1;
          }
        }
        assert Model() == p.(currentAlbum := StepForward(p.currentAlbum, p.maxAlbum, loop));
        var a := Announce(currentAlbum, -1);
        calls := calls + a;
      } else {
        currentTrack := currentTrack + 1;
        if loop {
          currentTrack := 0;
        } else {
          currentTrack := maxTrack - 1;
          return false, calls;
        }
        assert Model() == p.(currentTrack := 0);
        var more := AnnounceAndPlay(announce, StateAfter(ps, calls));
        calls := calls + more;
      }
      ok := true;
    }

    /** `pause()`. */
    method Pause(ps: PlaybackState) returns (calls: seq<PlaylistCall>)
      requires Valid()
      modifies this, shuffle
      ensures Valid()
      ensures (Model(), calls) == PauseSpec(card, context, old(Model()), ps)
    {
      if state == AlbumMenu {
        currentTrack := 0;
        state := AlbumPlayback;
        calls := [StopAndClearCall];
        var more := AnnounceAndPlay(true, StateAfter(ps, calls));
        calls := calls + more;
      } else if ps == Playing || ps == Paused {
        calls := [PauseCall];
      } else {
        calls := [];
      }
    }

    /** `reset()`; `sdEnter` calls it when the player's menu is entered. */
    method Reset() returns (calls: seq<PlaylistCall>)
      requires Valid()
      modifies this
      ensures Valid()
      ensures (Model(), calls) == ResetSpec(card, old(Model()))
    {
      currentAlbum := 0;
      currentTrack := 0;
      calls := Announce(currentAlbum, -1);
    }

    function GetState(): SDState
      reads this
    {
      state
    }

    /** `setState(newState)`. */
    method SetState(newState: SDState) returns (calls: seq<PlaylistCall>)
      requires Valid()
      modifies this
      ensures Valid()
      ensures (Model(), calls) == SetStateSpec(card, old(Model()), newState)
    {
      calls := [];
      if state == AlbumPlayback && newState == AlbumMenu {
        calls := Announce(currentAlbum, -1);
      }
      state := newState;
    }

    /** `sdLeave`, the leave callback of the player's button menu. */
    method Leave() returns (leave: bool, calls: seq<PlaylistCall>)
      requires Valid()
      modifies this
      ensures Valid()
      ensures (Model(), leave, calls) == LeaveSpec(card, old(Model()))
    {
      if GetState() == AlbumMenu {
        return true, [];
      }
      calls := SetState(AlbumMenu);
      leave := false;
    }

    /** `sdPlaylistEnd`, the playlist's end callback. */
    method PlaylistEnd(ps: PlaybackState) returns (calls: seq<PlaylistCall>)
      requires Valid()
      modifies this, shuffle
      ensures Valid()
      ensures (Model(), calls) == PlaylistEndSpec(card, context, old(Model()), ps)
    {
      var success;
      success, calls := Next(false, false, ps);
      if !success {
        calls := calls + [AddCall(StoppedFile), PlayCall];
      }
    }
  }
}
