/** The web-radio player: station URLs are the lines of `/webradio.txt`
    that start with "http:", indexed by their byte offsets. The player keeps
    the current station and drives the playlist through the calls it
    returns; the card is the in-memory card of the SD-card model. */
module Webradio {
  import opened Util
  import opened Playlist
  import S = SdCard

  const MaxStations := 25
  /** `MAX_URL_LEN`: the longest read into the URL buffer. */
  const MaxUrlLen := 255
  /** The read size that makes the line-skipping loop read on. */
  const SkipRepeat := 128
  /** Size `announce` passes to `snprintf`. */
  const AnnounceBufferSize := 128
  const StationFile := "/webradio.txt"
  const FallbackFile := "/system/connection_failed.mp3"
  const StoppedFile := "/system/stopped.mp3"

  /** The bytes of the station list; a missing file reads as empty. */
  function StationData(card: S.Card): seq<char>
  {
    S.Contents(card, StationFile)
  }

  // ---------------------------------------------------------------------
  // The station parser
  // ---------------------------------------------------------------------

  /** The skip loop of webradio.cpp:47-51: read up to MAX_URL_LEN bytes of a
      line, and read on while a read returned `repeatOn` bytes. */
  function SkipLine(data: seq<char>, pos: nat, repeatOn: nat): (r: nat)
    requires pos <= |data| && repeatOn >= 1
    ensures pos <= r <= |data|
    decreases |data| - pos
  {
    var read := ReadBytesUntil(data, pos, '\n', MaxUrlLen);
    if |read.0| == repeatOn then SkipLine(data, read.1, repeatOn) else read.1
  }

  /** Whether a line header read by `readBytesUntil(':', buffer, 6)` is "http". */
  predicate IsHttp(header: seq<char>)
  {
    header == "http"
  }

  /** The station offsets the constructor has recorded once it has read on
      from position `pos`, `found` having been recorded before: each line's
      header is read up to ':' (at most 6 bytes); an "http" header records
      the position after it less five; the rest of the line is skipped.
      Parsing keeps what was recorded and stops at MAX_WEBRADIO_STATIONS. */
  function Stations(data: seq<char>, pos: nat, found: seq<int>, repeatOn: nat): (r: seq<int>)
    requires pos <= |data| && |found| < MaxStations && repeatOn >= 1
    decreases |data| - pos
    ensures |found| <= |r| <= MaxStations
  {
    if pos == |data| then found
    else
      var header := ReadBytesUntil(data, pos, ':', 6);
      var more := if IsHttp(header.0) then found + [header.1 as int - 5] else found;
      if |more| == MaxStations then more
      else Stations(data, SkipLine(data, header.1, repeatOn), more, repeatOn)
  }

  /** The stations of a card, as the constructor parses them: at most
      MAX_WEBRADIO_STATIONS offsets, each at a line header "http:". */
  function StationsOf(card: S.Card): (r: seq<int>)
    ensures |r| <= MaxStations
    ensures forall i :: 0 <= i < |r| ==> StationHeaderAt(StationData(card), r[i])
  {
    var data := StationData(card);
    StationsPointAtHeaders(data, 0, [], SkipRepeat);
    var r := Stations(data, 0, [], SkipRepeat);
    assert forall i :: 0 <= i < |r| ==> StationHeaderAt(data, r[i]);
    r
  }

  /** The URL `play` reads at a station offset: the bytes of the file from
      there, up to the end of the line and at most MAX_URL_LEN of them; an
      offset outside the file reads nothing. */
  function UrlAt(data: seq<char>, offset: int): (u: string)
    ensures |u| <= MaxUrlLen && '\n' !in u
    ensures 0 <= offset <= |data| ==> offset + |u| <= |data| && u == data[offset..offset + |u|]
    ensures !(0 <= offset <= |data|) ==> u == []
  {
    if 0 <= offset <= |data| then
      ReadBytesUntilFacts(data, offset, '\n', MaxUrlLen);
      ReadBytesUntil(data, offset, '\n', MaxUrlLen).0
    else []
  }

  // ---------------------------------------------------------------------
  // The player as a value
  // ---------------------------------------------------------------------

  datatype Radio = Radio(stations: seq<int>, currentItem: int)

  /** `play(index)`, with `ps` what the playlist's `getState()` reports: a
      station in range becomes current, and the playlist is touched exactly
      when, in addition, the station file exists. */
  function PlaySpec(card: S.Card, r: Radio, index: int, ps: PlaybackState): (res: (Radio, seq<PlaylistCall>))
    ensures res.0.stations == r.stations
    ensures res.0.currentItem == if 0 <= index < |r.stations| then index else r.currentItem
    ensures res.1 != [] <==> 0 <= index < |r.stations| && S.Exists(card, StationFile)
  {
    if index < 0 || index >= |r.stations| then (r, [])
    else if !S.Exists(card, StationFile) then (r.(currentItem := index), [])
    else
      var url := UrlAt(StationData(card), r.stations[index]);
      (r.(currentItem := index),
       (if ps != Stopped then [StopAndClearCall] else []) + [AddCall(url), AddCall(FallbackFile), PlayCall])
  }

  /** The station's own announcement file, as written: the station number
      k = currentItem + 1 gets a leading 0 while currentItem is below 10, so
      station 10 is looked up as "/webradio/010.mp3": the digits start with
      a 0 exactly for currentItem below 10. */
  function AnnounceOwnFile(currentItem: int): (f: string)
    ensures |f| >= 11 && f[..10] == "/webradio/"
    ensures f[10] == '0' <==> currentItem < 10
  {
    var k := currentItem + 1;
    if currentItem < 10 then Bounded("/webradio/0" + FormatInt(k) + ".mp3", AnnounceBufferSize)
    else Bounded("/webradio/" + FormatInt(k) + ".mp3", AnnounceBufferSize)
  }

  /** The system number file "/system/k.mp3". */
  function SystemNumberFile(k: int): string
  {
    Bounded("/system/" + FormatInt(k) + ".mp3", AnnounceBufferSize)
  }

  /** The file `announce` enqueues: the station's own file when the card has
      it, the spoken system number otherwise. */
  function AnnounceFile(card: S.Card, currentItem: int): (f: string)
    ensures |f| < AnnounceBufferSize
  {
    var own := AnnounceOwnFile(currentItem);
    if S.Exists(card, own) then own else SystemNumberFile(currentItem + 1)
  }

  /** The two-digit numbering of the announcement files (a leading 0 exactly
      for the station numbers below 10). */
  function AnnounceOwnFileIntended(currentItem: int): (f: string)
    ensures |f| >= 11 && f[..10] == "/webradio/"
    ensures f[10] == '0' <==> currentItem + 1 < 10
  {
    var k := currentItem + 1;
    if k < 10 then Bounded("/webradio/0" + FormatInt(k) + ".mp3", AnnounceBufferSize)
    else Bounded("/webradio/" + FormatInt(k) + ".mp3", AnnounceBufferSize)
  }

  /** `announce(index)`: it announces `currentItem`, whatever the argument:
      clear the playlist, queue that one file, play. */
  function AnnounceCalls(card: S.Card, r: Radio): (c: seq<PlaylistCall>)
    ensures c == [StopAndClearCall, AddCall(AnnounceFile(card, r.currentItem)), PlayCall]
  {
    [StopAndClearCall] + AddsOf([AnnounceFile(card, r.currentItem)]) + [PlayCall]
  }

  /** The playlist reset `previous` and `next` start with. */
  function UnpauseCalls(ps: PlaybackState): seq<PlaylistCall>
  {
    if ps == Paused then [StopAndClearCall] else []
  }

  /** `previous()`: nothing while playing; otherwise step back, wrapping
      below 0 to the last station, and announce. */
  function PreviousSpec(card: S.Card, r: Radio, ps: PlaybackState): (res: (Radio, seq<PlaylistCall>))
    ensures res.0.stations == r.stations
    ensures ps != Playing && 0 <= r.currentItem < |r.stations| ==> 0 <= res.0.currentItem < |r.stations|
    ensures ps != Playing ==> res.1 == UnpauseCalls(ps) + AnnounceCalls(card, res.0)
  {
    if ps == Playing then (r, [])
    else
      var i := if r.currentItem - 1 < 0 then |r.stations| - 1 else r.currentItem - 1;
      var q := r.(currentItem := i);
      (q, UnpauseCalls(ps) + AnnounceCalls(card, q))
  }

  /** `next()`: nothing while playing; otherwise step forward, wrapping at
      the station count to 0, and announce. */
  function NextSpec(card: S.Card, r: Radio, ps: PlaybackState): (res: (Radio, seq<PlaylistCall>))
    ensures res.0.stations == r.stations
    ensures ps != Playing && 0 <= r.currentItem < |r.stations| ==> 0 <= res.0.currentItem < |r.stations|
    ensures ps != Playing ==> res.1 == UnpauseCalls(ps) + AnnounceCalls(card, res.0)
  {
    if ps == Playing then (r, [])
    else
      var i := if r.currentItem + 1 >= |r.stations| then 0 else r.currentItem + 1;
      var q := r.(currentItem := i);
      (q, UnpauseCalls(ps) + AnnounceCalls(card, q))
  }

  /** `pause()`: while playing or paused, replace the stream by the "stopped"
      notice; otherwise play the current station. */
  function PauseSpec(card: S.Card, r: Radio, ps: PlaybackState): (res: (Radio, seq<PlaylistCall>))
    ensures res.0.stations == r.stations
    ensures ps == Playing || ps == Paused ==> res.0 == r && res.1 == [StopAndClearCall, AddCall(StoppedFile), PlayCall]
    ensures ps != Playing && ps != Paused && 0 <= r.currentItem < |r.stations| ==>
              res.0 == r && (res.1 != [] <==> S.Exists(card, StationFile))
  {
    if ps == Playing || ps == Paused then (r, [StopAndClearCall] + AddsOf([StoppedFile]) + [PlayCall])
    else PlaySpec(card, r, r.currentItem, ps)
  }

  /** `reset()`, which entering the player's menu runs once WiFi is up: the
      first station becomes current and is announced. */
  function ResetSpec(card: S.Card, r: Radio): (res: (Radio, seq<PlaylistCall>))
    ensures res.0.currentItem == 0 && res.0.stations == r.stations
    ensures res.1 == [StopAndClearCall, AddCall(AnnounceFile(card, 0)), PlayCall]
  {
    var q := r.(currentItem := 0);
    (q, AnnounceCalls(card, q))
  }

  // ---------------------------------------------------------------------
  // Lemmas
  // ---------------------------------------------------------------------

  /** One turn of the parse: the header read, the offset it may record,
      and the skip to the next line. */
  lemma StationsStep(data: seq<char>, pos: nat, found: seq<int>, header: (seq<char>, nat), more: seq<int>, repeatOn: nat)
    requires pos < |data| && |found| < MaxStations && repeatOn >= 1
    requires header == ReadBytesUntil(data, pos, ':', 6)
    requires more == if IsHttp(header.0) then found + [header.1 as int - 5] else found
    ensures |more| == MaxStations ==> Stations(data, pos, found, repeatOn) == more
    ensures |more| < MaxStations ==>
              Stations(data, pos, found, repeatOn) == Stations(data, SkipLine(data, header.1, repeatOn), more, repeatOn)
  {
  }

  /** Parsing never records more than MAX_WEBRADIO_STATIONS stations, and
      it only ever adds to what it has recorded. */
  lemma {:induction false} StationsBounded(data: seq<char>, pos: nat, found: seq<int>, repeatOn: nat)
    requires pos <= |data| && |found| < MaxStations && repeatOn >= 1
    ensures var r := Stations(data, pos, found, repeatOn);
            |found| <= |r| <= MaxStations && r[..|found|] == found
    decreases |data| - pos
  {
    if pos < |data| {
      var header := ReadBytesUntil(data, pos, ':', 6);
      var more := if IsHttp(header.0) then found + [header.1 as int - 5] else found;
      StationsStep(data, pos, found, header, more, repeatOn);
      assert more[..|found|] == found;
      if |more| < MaxStations {
        var after := SkipLine(data, header.1, repeatOn);
        StationsBounded(data, after, more, repeatOn);
        var r := Stations(data, after, more, repeatOn);
        assert r[..|found|] == r[..|more|][..|found|];
      }
    }
  }

  /** Where a recorded offset points: "http" followed by its ':' or, when the
      file ends right after an unterminated "http", one byte before it. */
  predicate StationHeaderAt(data: seq<char>, offset: int)
  {
    (0 <= offset && offset + 5 <= |data| && data[offset..offset + 5] == "http:")
    || (offset + 5 == |data| && 0 <= offset + 1 && data[offset + 1..] == "http")
  }

  /** A line whose header is "http" records an offset at that header. */
  lemma StationLineAtHeader(data: seq<char>, pos: nat)
    requires pos < |data| && IsHttp(ReadBytesUntil(data, pos, ':', 6).0)
    ensures StationHeaderAt(data, ReadBytesUntil(data, pos, ':', 6).1 as int - 5)
  {
    ReadBytesUntilFacts(data, pos, ':', 6);
    var (header, next) := ReadBytesUntil(data, pos, ':', 6);
    if next == pos + 5 {
      assert data[pos..pos + 5] == header + [':'];
    } else {
      assert next == pos + 4 == |data|;
      assert data[pos..] == header;
    }
  }

  /** Every recorded offset is the start of a line header "http:" (up to the
      end-of-file case). */
  lemma {:induction false} StationsPointAtHeaders(data: seq<char>, pos: nat, found: seq<int>, repeatOn: nat)
    requires pos <= |data| && |found| < MaxStations && repeatOn >= 1
    requires forall i :: 0 <= i < |found| ==> StationHeaderAt(data, found[i])
    ensures forall i :: 0 <= i < |Stations(data, pos, found, repeatOn)| ==>
              StationHeaderAt(data, Stations(data, pos, found, repeatOn)[i])
    decreases |data| - pos
  {
    if pos < |data| {
      var header := ReadBytesUntil(data, pos, ':', 6);
      var more := if IsHttp(header.0) then found + [header.1 as int - 5] else found;
      StationsStep(data, pos, found, header, more, repeatOn);
      if IsHttp(header.0) {
        StationLineAtHeader(data, pos);
      }
      assert forall i :: 0 <= i < |more| ==> StationHeaderAt(data, more[i]) by {
        forall i | 0 <= i < |more|
          ensures StationHeaderAt(data, more[i])
        {
          if i < |found| {
            assert more[i] == found[i];
          }
        }
      }
      if |more| < MaxStations {
        StationsPointAtHeaders(data, SkipLine(data, header.1, repeatOn), more, repeatOn);
      }
    }
  }

  /** Skipping a line of `n` bytes that fits one read: when the read does
      not return `repeatOn` bytes, the skip ends after its newline. */
  lemma SkipLineStops(data: seq<char>, pos: nat, n: nat, repeatOn: nat)
    requires pos + n < |data| && n < MaxUrlLen && n != repeatOn && repeatOn >= 1
    requires '\n' !in data[pos..pos + n] && data[pos + n] == '\n'
    ensures SkipLine(data, pos, repeatOn) == pos + n + 1
  {
    ReadBytesUntilStopsAt(data, pos, '\n', MaxUrlLen, n);
  }

  /** ... and when it does, the skip reads on into the following line. */
  lemma SkipLineRepeats(data: seq<char>, pos: nat, n: nat, repeatOn: nat)
    requires pos + n < |data| && n < MaxUrlLen && n == repeatOn && repeatOn >= 1
    requires '\n' !in data[pos..pos + n] && data[pos + n] == '\n'
    ensures SkipLine(data, pos, repeatOn) == SkipLine(data, pos + n + 1, repeatOn)
  {
    ReadBytesUntilStopsAt(data, pos, '\n', MaxUrlLen, n);
  }

  /** The header read of a line that starts with "http:". */
  lemma HttpHeader(data: seq<char>, pos: nat)
    requires pos + 5 <= |data| && data[pos..pos + 5] == "http:"
    ensures ReadBytesUntil(data, pos, ':', 6) == ("http", pos + 5)
  {
    assert data[pos..pos + 4] == data[pos..pos + 5][..4] == "http";
    assert data[pos + 4] == data[pos..pos + 5][4] == ':';
    ReadBytesUntilStopsAt(data, pos, ':', 6, 4);
  }

  /** The parts of a line "http:" + url + "\n". */
  lemma StationLineParts(url: string)
    ensures var w := "http:" + url + "\n";
            w[..5] == "http:" && w[5..5 + |url|] == url && w[5 + |url|] == '\n'
  {
  }

  /** A station line "http:" + url + "\n" starting at `pos`: its header
      read returns "http" and stops at the URL, which follows. */
  lemma StationHeaderLine(data: seq<char>, pos: nat, url: string)
    requires pos + |url| + 6 <= |data| && data[pos..pos + |url| + 6] == "http:" + url + "\n"
    ensures ReadBytesUntil(data, pos, ':', 6) == ("http", pos + 5)
    ensures data[pos + 5..pos + 5 + |url|] == url && data[pos + 5 + |url|] == '\n'
  {
    StationLineParts(url);
    var line := data[pos..pos + |url| + 6];
    assert data[pos..pos + 5] == line[..5];
    forall k | 0 <= k < |url|
      ensures data[pos + 5..pos + 5 + |url|][k] == url[k]
    {
      assert line[5 + k] == url[k];
    }
    HttpHeader(data, pos);
  }

  /** A station line whose URL fits the read and is not `repeatOn` bytes
      long records `pos` and hands on to the byte after its newline. */
  lemma StationLine(data: seq<char>, pos: nat, url: string, repeatOn: nat)
    requires pos + |url| + 6 <= |data| && data[pos..pos + |url| + 6] == "http:" + url + "\n"
    requires '\n' !in url && |url| < MaxUrlLen && |url| != repeatOn && repeatOn >= 1
    ensures ReadBytesUntil(data, pos, ':', 6) == ("http", pos + 5)
    ensures SkipLine(data, pos + 5, repeatOn) == pos + |url| + 6
  {
    StationHeaderLine(data, pos, url);
    SkipLineStops(data, pos + 5, |url|, repeatOn);
  }

  /** A station line whose URL is exactly `repeatOn` bytes long: its skip
      reads on into the next line. */
  lemma RepeatedStationLine(data: seq<char>, pos: nat, url: string, repeatOn: nat)
    requires pos + |url| + 6 <= |data| && data[pos..pos + |url| + 6] == "http:" + url + "\n"
    requires '\n' !in url && |url| < MaxUrlLen && |url| == repeatOn && repeatOn >= 1
    ensures ReadBytesUntil(data, pos, ':', 6) == ("http", pos + 5)
    ensures SkipLine(data, pos + 5, repeatOn) == SkipLine(data, pos + |url| + 6, repeatOn)
  {
    StationHeaderLine(data, pos, url);
    SkipLineRepeats(data, pos + 5, |url|, repeatOn);
  }

  /** A last line that fits the read and is not `repeatOn` bytes long ends
      its skip at the end of the file. */
  lemma LastLineSkip(data: seq<char>, pos: nat, text: string, repeatOn: nat)
    requires pos <= |data| && data[pos..] == text + "\n"
    requires '\n' !in text && |text| < MaxUrlLen && |text| != repeatOn && repeatOn >= 1
    ensures SkipLine(data, pos, repeatOn) == |data|
  {
    assert data[pos..pos + |text|] == data[pos..][..|text|] == text;
    assert data[pos + |text|] == data[pos..][|text|] == '\n';
    SkipLineStops(data, pos, |text|, repeatOn);
  }

  /** The skip loop as written reads on after a read of 128 bytes, which a
      line of exactly 128 more bytes produces: the next line is swallowed, so
      of two stations only the first is found. */
  lemma LongLineSwallowsNext(first: string, second: string)
    requires |first| == SkipRepeat && '\n' !in first
    requires 5 + |second| < SkipRepeat && '\n' !in second
    ensures var head := "http:" + first + "\n";
            var tail := "http:" + second + "\n";
            Stations(head + tail, 0, [], SkipRepeat) == [0]
  {
    var head := "http:" + first + "\n";
    var tail := "http:" + second + "\n";
    var data := head + tail;
    assert data[..|head|] == head;
    assert data[|head|..] == tail;
    RepeatedStationLine(data, 0, first, SkipRepeat);
    LastLineSkip(data, |head|, "http:" + second, SkipRepeat);
    StationsStep(data, 0, [], ("http", 5), [0], SkipRepeat);
  }

  /** With the skip loop reading on after a full MAX_URL_LEN read, the same
      file yields both stations. */
  lemma LongLineKeepsNextIntended(first: string, second: string)
    requires |first| == SkipRepeat && '\n' !in first
    requires 5 + |second| < SkipRepeat && '\n' !in second
    ensures var head := "http:" + first + "\n";
            var tail := "http:" + second + "\n";
            Stations(head + tail, 0, [], MaxUrlLen) == [0, |head|]
  {
    var head := "http:" + first + "\n";
    var tail := "http:" + second + "\n";
    var data := head + tail;
    assert data[0..|head|] == head;
    assert data[|head|..|head| + |tail|] == tail;
    StationLine(data, 0, first, MaxUrlLen);
    StationLine(data, |head|, second, MaxUrlLen);
    TwoStationLines(data, |head|, MaxUrlLen);
  }

  /** A file of two station lines, neither of the skip loop's repeat length,
      yields both stations: stated on what the reads return. */
  lemma TwoStationLines(data: seq<char>, h: nat, repeatOn: nat)
    requires 0 < h < |data| && repeatOn >= 1
    requires ReadBytesUntil(data, 0, ':', 6) == ("http", 5) && SkipLine(data, 5, repeatOn) == h
    requires ReadBytesUntil(data, h, ':', 6) == ("http", h + 5) && SkipLine(data, h + 5, repeatOn) == |data|
    ensures Stations(data, 0, [], repeatOn) == [0, h]
  {
    StationsAfterLine(data, 0, [], h, repeatOn);
    assert [] + [0] == [0];
    StationsAfterLine(data, h, [0], |data|, repeatOn);
    assert [0] + [h] == [0, h];
  }

  /** A line whose header read returns "http" adds its offset, and the parse
      goes on where the skip loop stops. */
  lemma StationsAfterLine(data: seq<char>, pos: nat, found: seq<int>, next: nat, repeatOn: nat)
    requires pos < |data| && |found| + 1 < MaxStations && repeatOn >= 1
    requires ReadBytesUntil(data, pos, ':', 6) == ("http", pos + 5)
    requires SkipLine(data, pos + 5, repeatOn) == next
    ensures Stations(data, pos, found, repeatOn) == Stations(data, next, found + [pos], repeatOn)
  {
    StationsStep(data, pos, found, ReadBytesUntil(data, pos, ':', 6), found + [pos], repeatOn);
  }

  /** A missing station file parses to no stations at all. */
  lemma NoFileNoStations(card: S.Card)
    requires !S.Exists(card, StationFile)
    ensures StationsOf(card) == []
  {
  }

  // ---------------------------------------------------------------------
  // Lemmas about the player operations
  // ---------------------------------------------------------------------

  /** `play` outside [0, numRadioStations) changes nothing and calls nothing. */
  lemma PlayOutOfRangeIsNoop(card: S.Card, r: Radio, index: int, ps: PlaybackState)
    requires index < 0 || index >= |r.stations|
    ensures PlaySpec(card, r, index, ps) == (r, [])
  {
  }

  /** The calls `play` makes for a station in range when the file exists. */
  function StreamCalls(url: string, ps: PlaybackState): seq<PlaylistCall>
  {
    (if ps != Stopped then [StopAndClearCall] else []) + [AddCall(url), AddCall(FallbackFile), PlayCall]
  }

  lemma PlayCallsAreStream(card: S.Card, r: Radio, index: int, ps: PlaybackState)
    requires 0 <= index < |r.stations| && S.Exists(card, StationFile)
    ensures PlaySpec(card, r, index, ps)
         == (r.(currentItem := index), StreamCalls(UrlAt(StationData(card), r.stations[index]), ps))
  {
  }

  /** A station played from any state other than Stopped ends up alone in
      the queue, as its URL followed by the connection-failed notice, and
      the playlist waits in Reset for its loop to start it. */
  lemma StreamReplacesQueue(url: string, s: Snapshot)
    requires Consistent(s) && s.state != Stopped && |s.slots| >= 3 && |url| <= MaxUrlLen
    ensures var after := ApplyCalls(s, StreamCalls(url, s.state));
            Pending(after) == [url, FallbackFile] && after.state == Reset
  {
    var names := [url, FallbackFile];
    assert AddsOf(names) == [AddCall(url), AddCall(FallbackFile)];
    assert StreamCalls(url, s.state) == [StopAndClearCall] + AddsOf(names) + [PlayCall];
    ClearThenEnqueue(s, names);
  }

  /** From Stopped, `play` keeps what is queued, appends the URL and the
      notice, and starts playback. */
  lemma StreamAppendsWhenStopped(url: string, s: Snapshot)
    requires Consistent(s) && s.state == Stopped && |url| <= MaxUrlLen
    requires |Pending(s)| + 2 <= |s.slots| - 1
    ensures var after := ApplyCalls(s, StreamCalls(url, s.state));
            Pending(after) == Pending(s) + [url, FallbackFile] && after.state == Playing
  {
    var names := [url, FallbackFile];
    var adds := AddsOf(names);
    assert adds == [AddCall(url), AddCall(FallbackFile)];
    assert StreamCalls(url, s.state) == adds + [PlayCall];
    AddsAppend(s, names);
    var m := ApplyCalls(s, adds);
    ApplyCallsAppend(s, adds, [PlayCall]);
    ApplyOne(m, PlayCall);
    PendingIgnoresState(m, AfterPlay(m.state));
  }

  /** The URL `play` reads fits its buffer. */
  lemma UrlFits(data: seq<char>, offset: int)
    ensures |UrlAt(data, offset)| <= MaxUrlLen
  {
  }

  /** An announcement replaces the queue by exactly one file. */
  lemma AnnounceQueuesOne(card: S.Card, r: Radio, s: Snapshot)
    requires Consistent(s) && |s.slots| >= 2
    ensures var after := ApplyCalls(s, AnnounceCalls(card, r));
            Pending(after) == [AnnounceFile(card, r.currentItem)] && after.state == Reset
  {
    ClearThenEnqueue(s, [AnnounceFile(card, r.currentItem)]);
  }

  /** getState after `previous` or `next` has announced is Reset, whatever
      it was before. */
  lemma AnnouncedStateIsReset(st: PlaybackState, card: S.Card, r: Radio)
    ensures StateAfter(st, UnpauseCalls(st) + AnnounceCalls(card, r)) == Reset
  {
    var f := AnnounceFile(card, r.currentItem);
    var tail := [AddCall(f), PlayCall];
    assert AddsOf([f]) == [AddCall(f)];
    assert AnnounceCalls(card, r) == [StopAndClearCall] + tail;
    assert StateAfter(Reset, tail) == Reset by {
      assert tail[1..] == [PlayCall] && [PlayCall][1..] == [];
    }
    var cs := UnpauseCalls(st) + AnnounceCalls(card, r);
    if st == Paused {
      assert cs == [StopAndClearCall] + ([StopAndClearCall] + tail);
    } else {
      assert cs == [StopAndClearCall] + tail;
    }
  }

  /** While the playlist plays, `previous` and `next` leave everything alone. */
  lemma PlayingBlocksNavigation(card: S.Card, r: Radio)
    ensures PreviousSpec(card, r, Playing) == (r, [])
    ensures NextSpec(card, r, Playing) == (r, [])
  {
  }

  /** Navigation wraps around the station list: from a station in range,
      `next` moves to (i + 1) mod n and `previous` to (i - 1) mod n, so the
      current station stays in [0, n). */
  lemma NavigationWraps(card: S.Card, r: Radio, ps: PlaybackState)
    requires ps != Playing && 0 <= r.currentItem < |r.stations|
    ensures NextSpec(card, r, ps).0 == r.(currentItem := (r.currentItem + 1) % |r.stations|)
    ensures PreviousSpec(card, r, ps).0 == r.(currentItem := (r.currentItem - 1) % |r.stations|)
  {
    WrapMod(r.currentItem + 1, |r.stations|);
    WrapMod(r.currentItem - 1, |r.stations|);
  }

  /** `next` followed by `previous` (playback having been reset by the
      announcement in between) returns to the same station, and so does the
      opposite order. */
  lemma NextThenPreviousRestores(card: S.Card, r: Radio, ps: PlaybackState)
    requires ps != Playing && 0 <= r.currentItem < |r.stations|
    ensures var (q, calls) := NextSpec(card, r, ps);
            PreviousSpec(card, q, StateAfter(ps, calls)).0 == r
    ensures var (q, calls) := PreviousSpec(card, r, ps);
            NextSpec(card, q, StateAfter(ps, calls)).0 == r
  {
    var (q1, c1) := NextSpec(card, r, ps);
    AnnouncedStateIsReset(ps, card, q1);
    var (q2, c2) := PreviousSpec(card, r, ps);
    AnnouncedStateIsReset(ps, card, q2);
  }

  /** `pause` while playing or paused stops the stream: only the "stopped"
      notice is queued and the station is kept. */
  lemma PauseWhilePlayingStops(card: S.Card, r: Radio, s: Snapshot)
    requires Consistent(s) && |s.slots| >= 2 && (s.state == Playing || s.state == Paused)
    ensures var (q, calls) := PauseSpec(card, r, s.state);
            var after := ApplyCalls(s, calls);
            q == r && Pending(after) == [StoppedFile] && after.state == Reset
  {
    ClearThenEnqueue(s, [StoppedFile]);
  }

  /** `pause` from Stopped plays the current station; the playlist then
      plays, so a second `pause` stops it again. */
  lemma PauseTogglesStream(card: S.Card, r: Radio)
    requires 0 <= r.currentItem < |r.stations| && S.Exists(card, StationFile)
    ensures var (q, calls) := PauseSpec(card, r, Stopped);
            && q == r
            && calls == [AddCall(UrlAt(StationData(card), r.stations[r.currentItem])), AddCall(FallbackFile), PlayCall]
            && StateAfter(Stopped, calls) == Playing
            && PauseSpec(card, q, StateAfter(Stopped, calls)) == (r, [StopAndClearCall] + AddsOf([StoppedFile]) + [PlayCall])
  {
    var url := UrlAt(StationData(card), r.stations[r.currentItem]);
    var calls := [AddCall(url), AddCall(FallbackFile), PlayCall];
    assert PauseSpec(card, r, Stopped) == (r, [] + calls);
    assert [] + calls == calls;
    assert StateAfter(Stopped, calls) == Playing by {
      assert calls[1..] == [AddCall(FallbackFile), PlayCall];
      assert calls[1..][1..] == [PlayCall] && [PlayCall][1..] == [];
      assert StateAfter(Stopped, [PlayCall]) == StateAfter(Playing, []);
      assert StateAfter(Stopped, calls[1..]) == StateAfter(Stopped, [PlayCall]);
    }
  }

  /** `reset` selects the first station and announces it: "/webradio/01.mp3"
      when the card has it, the system number "/system/1.mp3" otherwise. */
  lemma ResetAnnouncesFirstStation(card: S.Card, r: Radio)
    ensures ResetSpec(card, r).0 == r.(currentItem := 0)
    ensures ResetSpec(card, r).1 == [StopAndClearCall, AddCall(
              if S.Exists(card, "/webradio/01.mp3") then "/webradio/01.mp3" else "/system/1.mp3"), PlayCall]
  {
    assert FormatInt(1) == "1";
    assert AnnounceOwnFile(0) == "/webradio/01.mp3";
    assert SystemNumberFile(1) == "/system/1.mp3";
  }

  /** As written, the tenth station (currentItem 9) is announced from a file
      with a three-digit number, while stations 1 to 9 and 11 on use two. */
  lemma TenthStationHasThreeDigits()
    ensures AnnounceOwnFile(9) == "/webradio/010.mp3"
    ensures AnnounceOwnFile(8) == "/webradio/09.mp3" && AnnounceOwnFile(10) == "/webradio/11.mp3"
  {
    assert FormatNat(1) == "1" && FormatNat(0) == "0";
    assert FormatNat(10) == FormatNat(1) + [DigitChar(0)] == "10";
    assert FormatNat(11) == FormatNat(1) + [DigitChar(1)] == "11";
    assert FormatInt(9) == "9";
  }

  /** With two-digit numbering, every station of the list (indeed every
      currentItem in [0, 99)) is announced from "/webradio/dd.mp3" whose two
      digits read back as its number k = currentItem + 1. */
  lemma IntendedAnnounceFileHasTwoDigits(currentItem: int)
    requires 0 <= currentItem < 99
    ensures var f := AnnounceOwnFileIntended(currentItem);
            && |f| == 16 && f[..10] == "/webradio/" && f[12..] == ".mp3"
            && IsDigit(f[10]) && IsDigit(f[11])
            && ParseDigits(f[10..12]) == currentItem + 1
  {
    var k := currentItem + 1;
    var f := AnnounceOwnFileIntended(currentItem);
    var d := if k < 10 then "0" + FormatNat(k) else FormatNat(k);
    assert |FormatNat(k)| == (if k < 10 then 1 else 2) by {
      if k >= 10 {
        assert FormatNat(k) == FormatNat(k / 10) + [DigitChar(k % 10)];
      }
    }
    assert f == "/webradio/" + d + ".mp3";
    assert f[10..12] == d;
    ParseFormatNat(k);
    if k < 10 {
      assert d[..1] == "0" && d[1] == FormatNat(k)[0];
      assert ParseDigits(d[..1]) == 0 by {
        assert d[..1][..0] == [];
      }
      assert ParseDigits(FormatNat(k)) == FormatNat(k)[0] as int - '0' as int by {
        assert FormatNat(k)[..0] == [];
      }
    }
  }

  // ---------------------------------------------------------------------
  // The player
  // ---------------------------------------------------------------------

  /** Two sequences that agree at every index are equal. */
  lemma SameElements(a: seq<int>, b: seq<int>)
    requires |a| == |b| && forall i :: 0 <= i < |a| ==> a[i] == b[i]
    ensures a == b
  {
  }

  /** The constructor's read loop over the station file `data`: it fills
      `urloffset` and counts `numRadioStations`. */
  method ParseStations(data: seq<char>) returns (offsets: array<int>, n: nat)
    ensures fresh(offsets) && offsets.Length == MaxStations && n <= MaxStations
    ensures offsets[..n] == Stations(data, 0, [], SkipRepeat)
  {
    offsets := new int[MaxStations];
    n := 0;
    var pos := 0;
    ghost var total := Stations(data, 0, [], SkipRepeat);
    ghost var found: seq<int> := [];
    while pos < |data|
      invariant pos <= |data| && n == |found| < MaxStations
      invariant forall i :: 0 <= i < n ==> offsets[i] == found[i]
      invariant Stations(data, pos, found, SkipRepeat) == total
      decreases |data| - pos
    {
      var header := ReadBytesUntil(data, pos, ':', 6);
      ghost var more := if IsHttp(header.0) then found + [header.1 as int - 5] else found;
      StationsStep(data, pos, found, header, more, SkipRepeat);
      ghost var after := SkipLine(data, header.1, SkipRepeat);
      pos := header.1;
      if IsHttp(header.0) {
        offsets[n] := pos as int - 5;
        n := n + 1;
        found := more;
        if n == MaxStations {
          break;
        }
      }
      var repeat := true;
      while repeat
        invariant pos <= |data|
        invariant after == if repeat then SkipLine(data, pos, SkipRepeat) else pos
        decreases |data| - pos, repeat
      {
        var got := ReadBytesUntil(data, pos, '\n', MaxUrlLen);
        pos := got.1;
        repeat := |got.0| == SkipRepeat;
      }
    }
    SameElements(offsets[..n], found);
  }

  /** `WebradioPlayer`: the station offsets parsed at construction and the
      current station. The playlist is not held: each operation takes what
      its `getState()` reports on entry and returns the calls it makes. */
  class WebradioPlayer {
    const card: S.Card
    const urloffset: array<int>
    var numRadioStations: int
    var currentItem: int

    /** The offsets are the ones the constructor parsed: they never change. */
    ghost predicate Valid()
      reads this, urloffset
    {
      urloffset.Length == MaxStations && 0 <= numRadioStations <= MaxStations
      && urloffset[..numRadioStations] == StationsOf(card)
    }

    ghost function Model(): (r: Radio)
      requires Valid()
      reads this, urloffset
      ensures |r.stations| <= MaxStations
    {
      Radio(urloffset[..numRadioStations], currentItem)
    }

    /** Parses "/webradio.txt" line by line: a line whose header is "http"
        records the offset of that header, until MAX_WEBRADIO_STATIONS are
        found; every other line, and the rest of a station line, is skipped. */
    constructor(card: S.Card)
      ensures Valid() && this.card == card
      ensures Model() == Radio(StationsOf(card), 0)
      ensures fresh(urloffset)
    {
      this.card := card;
      currentItem := 0;
      var offsets, n := ParseStations(StationData(card));
      urloffset := offsets;
      numRadioStations := n;
    }

    /** `play(index)`: select the station and stream its URL, with the
        connection-failed notice queued behind it. */
    method Play(index: int, ps: PlaybackState) returns (calls: seq<PlaylistCall>)
      requires Valid()
      modifies `currentItem
      ensures Valid()
      ensures (Model(), calls) == PlaySpec(card, old(Model()), index, ps)
    {
      calls := [];
      if index < 0 || index >= numRadioStations {
        return;
      }
      currentItem := index;
      if !S.Exists(card, StationFile) {
        return;
      }
      var buffer := UrlAt(StationData(card), urloffset[index]);
      if ps != Stopped {
        calls := [StopAndClearCall];
      }
      calls := calls + [AddCall(buffer), AddCall(FallbackFile), PlayCall];
    }

    /** `announce(index)`: the argument is not used; the current station is
        announced. */
    method Announce(index: int) returns (calls: seq<PlaylistCall>)
      requires Valid()
      ensures calls == AnnounceCalls(card, Model())
    {
      var buffer;
      if currentItem < 10 {
        buffer := Bounded("/webradio/0" + FormatInt(currentItem + 1) + ".mp3", AnnounceBufferSize);
      } else {
        buffer := Bounded("/webradio/" + FormatInt(currentItem + 1) + ".mp3", AnnounceBufferSize);
      }
      if !S.Exists(card, buffer) {
        buffer := Bounded("/system/" + FormatInt(currentItem + 1) + ".mp3", AnnounceBufferSize);
      }
      calls := [StopAndClearCall, AddCall(buffer), PlayCall];
    }

    method Previous(ps: PlaybackState) returns (calls: seq<PlaylistCall>)
      requires Valid()
      modifies `currentItem
      ensures Valid()
      ensures (Model(), calls) == PreviousSpec(card, old(Model()), ps)
    {
      ghost var before := Model();
      calls := [];
      if ps == Playing {
        return;
      }
      if ps == Paused {
        calls := [StopAndClearCall];
      }
      currentItem := currentItem - 1;
      if currentItem < 0 {
        currentItem := numRadioStations - 1;
      }
      assert Model() == before.(currentItem := currentItem);
      var more := Announce(currentItem);
      calls := calls + more;
      assert calls == UnpauseCalls(ps) + AnnounceCalls(card, Model());
    }

    method Next(ps: PlaybackState) returns (calls: seq<PlaylistCall>)
      requires Valid()
      modifies `currentItem
      ensures Valid()
      ensures (Model(), calls) == NextSpec(card, old(Model()), ps)
    {
      ghost var before := Model();
      calls := [];
      if ps == Playing {
        return;
      }
      if ps == Paused {
        calls := [StopAndClearCall];
      }
      currentItem := currentItem + 1;
      if currentItem >= numRadioStations {
        currentItem := 0;
      }
      assert Model() == before.(currentItem := currentItem);
      var more := Announce(currentItem);
      calls := calls + more;
      assert calls == UnpauseCalls(ps) + AnnounceCalls(card, Model());
    }

    method Pause(ps: PlaybackState) returns (calls: seq<PlaylistCall>)
      requires Valid()
      modifies `currentItem
      ensures Valid()
      ensures (Model(), calls) == PauseSpec(card, old(Model()), ps)
    {
      if ps == Playing || ps == Paused {
        calls := [StopAndClearCall, AddCall(StoppedFile), PlayCall];
        assert AddsOf([StoppedFile]) == [AddCall(StoppedFile)];
        assert [StopAndClearCall] + AddsOf([StoppedFile]) + [PlayCall] == calls;
      } else {
        calls := Play(currentItem, ps);
      }
    }

    /** `reset()`: back to the first station, announced. */
    method Reset() returns (calls: seq<PlaylistCall>)
      requires Valid()
      modifies `currentItem
      ensures Valid()
      ensures (Model(), calls) == ResetSpec(card, old(Model()))
    {
      currentItem := 0;
      calls := Announce(currentItem);
    }
  }
}
