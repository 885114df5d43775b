/** The playback queue and its state machine (src/playlist.cpp).

    `Snapshot` is the value of a `Playlist` object: the ring of file names,
    the read and write markers, the playback state, the end-of-playlist
    callback and context, and which stages of the audio chain exist (base
    source, wrapping source, decoder). Each operation of the class is
    specified by a function on snapshots; the properties the firmware relies
    on are proved about those functions. A lock that cannot be taken within
    its timeout is a `lockAcquired` parameter; decoding one step is a
    `StepOutcome` parameter; callbacks and their contexts are opaque handles. */
module Playlist {
  import opened Util

  /** `maxFilenameLength`: longer names are refused by addFilename. */
  const MaxFilenameLength := 256

  datatype PlaybackState = Stopped | Playing | Paused | Skipping | Reset

  /** What one `decoder->loop()` step reports: more data, or the end of the
      item (the decoder stopped running or its loop returned false). */
  datatype StepOutcome = Continue | Finished

  /** Which audio chain an item needs. */
  datatype ChainKind = Stream | LocalMp3 | Unsupported

  /** The end-of-playlist callback as `loop` invokes it: function and context. */
  datatype Invocation = Invocation(callback: Handle, context: Option<Handle>)

  datatype Snapshot = Snapshot(
    slots: seq<string>,
    read: int,
    write: int,
    state: PlaybackState,
    endCallback: Option<Handle>,
    endContext: Option<Handle>,
    base: bool,
    source: bool,
    decoder: bool)

  // ---------------------------------------------------------------------
  // The ring buffer
  // ---------------------------------------------------------------------

  /** Cursor ranges: write in [0, n), read in [-1, n); read == -1 (never
      written since the last clear) only with write == 0. */
  predicate RingOk(n: int, read: int, write: int)
  {
    n >= 1 && 0 <= write < n && -1 <= read < n && (read == -1 ==> write == 0)
  }

  /** The object invariant: sane cursors, and the chain is all or nothing. */
  predicate Consistent(s: Snapshot)
  {
    RingOk(|s.slots|, s.read, s.write) && s.base == s.source == s.decoder
  }

  /** Number of pending items: (write - read) mod N, or 0 before the first write. */
  function PendingCount(n: int, read: int, write: int): nat
    requires RingOk(n, read, write)
  {
    if read < 0 then 0 else if read <= write then write - read else write - read + n
  }

  /** The items still to be consumed, oldest first. */
  function Pending(s: Snapshot): (q: seq<string>)
    requires RingOk(|s.slots|, s.read, s.write)
    ensures |q| == PendingCount(|s.slots|, s.read, s.write) < |s.slots|
    ensures q == [] <==> s.read < 0 || s.read == s.write
    ensures |q| > 0 ==> q[0] == s.slots[s.read]
  {
    if s.read < 0 || s.read == s.write then []
    else if s.read < s.write then s.slots[s.read..s.write]
    else s.slots[s.read..] + s.slots[..s.write]
  }

  /** The C increment-and-wrap `m++; if (m >= N) m = 0;`. */
  function Advance(m: int, n: int): (r: int)
    requires 0 <= m < n
    ensures 0 <= r < n && r == (m + 1) % n
  {
    if m + 1 >= n then 0 else m + 1
  }

  /** addFilename, as written: refuses an over-long name, a lock timeout, or
      `writeMarker == readMarker - 1`; otherwise stores the name at the write
      marker, advances it, and starts the read marker at 0 if it was -1. */
  function Enqueue(s: Snapshot, name: string, lockAcquired: bool): (r: (Snapshot, bool))
    requires Consistent(s)
    ensures Consistent(r.0)
    ensures r.1 <==> |name| <= MaxFilenameLength && lockAcquired && s.write != s.read - 1
    ensures !r.1 ==> r.0 == s
    ensures r.1 ==> (r.0.slots == s.slots[s.write := name]
                     && r.0.write == (s.write + 1) % |s.slots|
                     && r.0.read == (if s.read == -1 then 0 else s.read))
    ensures r.0.state == s.state && r.0.endCallback == s.endCallback && r.0.endContext == s.endContext
    ensures r.0.decoder == s.decoder && r.0.source == s.source && r.0.base == s.base
  {
    if |name| > MaxFilenameLength then (s, false)
    else if !lockAcquired then (s, false)
    else if s.write == s.read - 1 then (s, false)
    else
      var s' := s.(slots := s.slots[s.write := name], write := Advance(s.write, |s.slots|));
      (if s'.read < 0 then s'.(read := 0) else s', true)
  }

  /** The full test the reserved-slot design intends: the slot after the
      write marker is the read marker (a read marker of -1 stands for 0). */
  predicate FullIntended(s: Snapshot)
    requires RingOk(|s.slots|, s.read, s.write)
  {
    Advance(s.write, |s.slots|) == if s.read < 0 then 0 else s.read
  }

  /** addFilename with the intended full test. */
  function EnqueueIntended(s: Snapshot, name: string, lockAcquired: bool): (r: (Snapshot, bool))
    requires Consistent(s)
    ensures Consistent(r.0)
    ensures r.1 <==> |name| <= MaxFilenameLength && lockAcquired && |Pending(s)| < |s.slots| - 1
    ensures !r.1 ==> r.0 == s
    ensures r.1 ==> Pending(r.0) == Pending(s) + [name]
  {
    FullIntendedIsCount(s);
    if |name| > MaxFilenameLength || !lockAcquired || FullIntended(s) then (s, false)
    else
      var s' := s.(slots := s.slots[s.write := name], write := Advance(s.write, |s.slots|));
      var r := if s'.read < 0 then s'.(read := 0) else s';
      AppendAtWrite(s, name);
      (r, true)
  }

  /** consumeItem: nothing on a lock timeout or an empty ring (read ==
      write, or read still -1); otherwise the item at the read marker, and
      the read marker advances. */
  function Consume(s: Snapshot, lockAcquired: bool): (r: (Snapshot, Option<string>))
    requires Consistent(s)
    ensures Consistent(r.0)
    ensures r.1.None? <==> !lockAcquired || Pending(s) == []
    ensures r.1.None? ==> r.0 == s
    ensures r.1.Some? ==> r.1.value == Pending(s)[0] && Pending(r.0) == Pending(s)[1..]
    ensures r.1.Some? ==> r.0 == s.(read := (s.read + 1) % |s.slots|)
  {
    if !lockAcquired then (s, None)
    else if s.read == s.write then (s, None)
    else if s.read >= 0 then
      ConsumeAtRead(s);
      (s.(read := Advance(s.read, |s.slots|)), Some(s.slots[s.read]))
    else (s, None)
  }

  /** stopAndClear: on taking the lock, empties the ring, enters Reset and
      forgets the end callback; the audio chain is left for `loop`. */
  function Clear(s: Snapshot, lockAcquired: bool): (r: Snapshot)
    requires Consistent(s)
    ensures Consistent(r)
    ensures !lockAcquired ==> r == s
    ensures lockAcquired ==> (Pending(r) == [] && r.state == Reset
                              && r.endCallback.None? && r.endContext.None?
                              && r.slots == s.slots && r.decoder == s.decoder)
  {
    if !lockAcquired then s
    else s.(read := -1, write := 0, state := Reset, endCallback := None, endContext := None)
  }

  /** registerPlaylistEndCallback: overwrites any callback not yet fired. */
  function RegisterEnd(s: Snapshot, callback: Handle, context: Option<Handle>): (r: Snapshot)
    requires Consistent(s)
    ensures Consistent(r) && Pending(r) == Pending(s)
    ensures r.endCallback == Some(callback) && r.endContext == context
  {
    s.(endCallback := Some(callback), endContext := context)
  }

  // ---------------------------------------------------------------------
  // The state machine
  // ---------------------------------------------------------------------

  /** play: Reset waits for the loop and everything else ends up Playing,
      so play never leaves a stopped, paused or skipping playlist. */
  function AfterPlay(st: PlaybackState): (r: PlaybackState)
    ensures r == Reset <==> st == Reset
    ensures r == Playing || r == Reset
  {
    if st == Reset then Reset
    else if st == Skipping then Playing
    else if st == Playing then Playing
    else Playing
  }

  /** pause: Playing and Paused swap, other states are left alone. */
  function AfterPause(st: PlaybackState): (r: PlaybackState)
    ensures r == Paused <==> st == Playing
    ensures st == Paused ==> r == Playing
    ensures st != Playing && st != Paused ==> r == st
  {
    if st == Playing then Paused
    else if st == Paused then Playing
    else st
  }

  /** skip as intended: an item is marked Skipping exactly when one is
      loaded (playing, paused, or already being skipped); a stopped or reset
      playlist is left as it is. Skip as written marks every state Skipping
      (see `Playlist.Skip`), so the two differ exactly on Stopped and Reset. */
  function AfterSkipIntended(st: PlaybackState): (r: PlaybackState)
    ensures r == Skipping <==> st == Playing || st == Paused || st == Skipping
    ensures st == Stopped || st == Reset ==> r == st
  {
    if st == Playing || st == Paused then Skipping else st
  }

  // ---------------------------------------------------------------------
  // Item resolution and the audio chain
  // ---------------------------------------------------------------------

  /** setupAudioSourceForFile's choice: a case-sensitive "http://" prefix is
      a network stream, otherwise a case-insensitive ".mp3" suffix is a file
      on the SD card, anything else is refused. */
  function Classify(name: string): (k: ChainKind)
    ensures k == Stream <==> StartsWith(name, "http://")
    ensures k == LocalMp3 <==> !StartsWith(name, "http://") && EndsWithIgnoreCase(name, ".mp3")
  {
    if StartsWith(name, "http://") then Stream
    else if EndsWithIgnoreCase(name, ".mp3") then LocalMp3
    else Unsupported
  }

  /** setupDecoderForFile's test (".mp3" suffix or "http://" prefix): it
      accepts exactly the names the source stage accepted. */
  function DecoderAccepts(name: string): (b: bool)
    ensures b <==> Classify(name) != Unsupported
  {
    EndsWithIgnoreCase(name, ".mp3") || StartsWith(name, "http://")
  }

  /** destroyAudioChain: decoder, source and base are released; the queue,
      the state and the end callback are untouched. */
  function Teardown(s: Snapshot): (r: Snapshot)
    requires Consistent(s)
    ensures Consistent(r)
    ensures !r.decoder && !r.source && !r.base
    ensures Pending(r) == Pending(s) && r.slots == s.slots && r.read == s.read && r.write == s.write
    ensures r.state == s.state && r.endCallback == s.endCallback && r.endContext == s.endContext
  {
    s.(decoder := false, source := false, base := false)
  }

  /** The `switch (state)` half of loop. */
  function Dispatch(s: Snapshot, outcome: StepOutcome): (r: Snapshot)
    requires Consistent(s)
    ensures Consistent(r) && Pending(r) == Pending(s)
    ensures r.endCallback == s.endCallback && r.endContext == s.endContext
    ensures s.state == Paused ==> r == s
    ensures s.state != Paused && s.state != Playing ==> !r.decoder
    ensures r.state == (if s.state == Reset || s.state == Skipping then Playing else s.state)
  {
    match s.state
    case Reset => Teardown(s).(state := Playing)
    case Stopped => Teardown(s)
    case Skipping => Teardown(s).(state := Playing)
    case Paused => s
    case Playing => if s.decoder && outcome == Finished then Teardown(s) else s
  }

  /** The first half of Playlist::loop: with no decoder, outside Stopped
      and Reset, dequeue an item and build its chain; an unsupported name is
      dropped. An empty queue (or a lock timeout) stops playback; a
      registered end callback is then cleared and called with its context,
      and the context is cleared only after the callback returns.
      `reaction` is what the callback does to the playlist while it runs
      (the calls it makes). The flag says whether loop goes on to the
      `switch (state)`. */
  function Fetch(s: Snapshot, lockAcquired: bool, reaction: seq<PlaylistCall>): (r: (Snapshot, Option<Invocation>, bool))
    requires Consistent(s)
    ensures Consistent(r.0)
    ensures r.2 ==> r.1.None? && r.0.state == s.state
    ensures r.1.Some? ==> s.endCallback == Some(r.1.value.callback) && r.1.value.context == s.endContext
    ensures r.1.Some? ==> r.0 == ApplyCalls(s.(state := Stopped, endCallback := None), reaction).(endContext := None)
    ensures r.1.Some? ==> !r.0.decoder && r.0.endContext.None?
    ensures !r.2 && r.1.None? ==> !r.0.decoder && (r.0.state == Stopped || r.0.state == s.state)
    ensures r.0.decoder ==> r.2
  {
    if !s.decoder && s.state != Stopped && s.state != Reset then
      var (s1, item) := Consume(s, lockAcquired);
      if item.None? then
        var s2 := s1.(state := Stopped);
        if s2.endCallback.Some? then
          var seen := s2.(endCallback := None);
          (ApplyCalls(seen, reaction).(endContext := None), Some(Invocation(s2.endCallback.value, s2.endContext)), false)
        else (s2, None, false)
      else if Classify(item.value) == Unsupported then (Teardown(s1), None, false)
      else (s1.(base := true, source := true, decoder := true), None, true)
    else (s, None, true)
  }

  /** One call of Playlist::loop; `reaction` is what a fired end callback
      does to the playlist. */
  function Tick(s: Snapshot, lockAcquired: bool, outcome: StepOutcome, reaction: seq<PlaylistCall>): (r: (Snapshot, Option<Invocation>))
    requires Consistent(s)
    ensures Consistent(r.0)
    ensures r.1.Some? ==> s.endCallback == Some(r.1.value.callback) && r.1.value.context == s.endContext
    ensures r.1.Some? ==> !r.0.decoder && r.0.endContext.None?
    ensures r.1.Some? ==> (r.0.endCallback, r.0.endContext) == (LastRegistration(None, s.endContext, reaction).0, None)
  {
    var (s1, fired, go) := Fetch(s, lockAcquired, reaction);
    if fired.Some? then
      RegistrationAfterCalls(s.(state := Stopped, endCallback := None), reaction);
      (s1, fired)
    else if go then (Dispatch(s1, outcome), None) else (s1, fired)
  }

  /** loop as the re-registering end callback needs it: the context is
      cleared together with the callback, before the call, so that whatever
      the callback registers survives. */
  function TickIntended(s: Snapshot, lockAcquired: bool, outcome: StepOutcome, reaction: seq<PlaylistCall>): (r: (Snapshot, Option<Invocation>))
    requires Consistent(s)
    ensures Consistent(r.0)
    ensures r.1 == Tick(s, lockAcquired, outcome, reaction).1
    ensures r.1.None? ==> r == Tick(s, lockAcquired, outcome, reaction)
    ensures r.1.Some? ==> (r.0.endCallback, r.0.endContext) == LastRegistration(None, None, reaction)
  {
    var (t, fired) := Tick(s, lockAcquired, outcome, []);
    if fired.Some? then
      RegistrationAfterCalls(t, reaction);
      (ApplyCalls(t, reaction), fired)
    else (t, fired)
  }

  // ---------------------------------------------------------------------
  // Calls made by the players
  // ---------------------------------------------------------------------

  /** The calls the SD and web-radio players make on the playlist. */
  datatype PlaylistCall =
    | StopAndClearCall
    | AddCall(name: string)
    | PlayCall
    | PauseCall
    | RegisterEndCall(callback: Handle, context: Option<Handle>)

  /** The effect of one call, when every lock is taken at the first attempt. */
  function ApplyCall(s: Snapshot, c: PlaylistCall): (r: Snapshot)
    requires Consistent(s)
    ensures Consistent(r) && |r.slots| == |s.slots| && r.decoder == s.decoder
  {
    match c
    case StopAndClearCall => Clear(s, true)
    case AddCall(name) => Enqueue(s, name, true).0
    case PlayCall => s.(state := AfterPlay(s.state))
    case PauseCall => s.(state := AfterPause(s.state))
    case RegisterEndCall(cb, ctx) => RegisterEnd(s, cb, ctx)
  }

  function ApplyCalls(s: Snapshot, cs: seq<PlaylistCall>): (r: Snapshot)
    requires Consistent(s)
    ensures Consistent(r) && |r.slots| == |s.slots| && r.decoder == s.decoder
    decreases |cs|
  {
    if cs == [] then s else ApplyCalls(ApplyCall(s, cs[0]), cs[1..])
  }

  /** What `getState()` reports after the calls, from the state alone:
      calls that neither clear, play nor pause keep the state, and a run
      that ends in stopAndClear leaves Reset. */
  function StateAfter(st: PlaybackState, cs: seq<PlaylistCall>): (r: PlaybackState)
    decreases |cs|
    ensures (forall i :: 0 <= i < |cs| ==> cs[i].AddCall? || cs[i].RegisterEndCall?) ==> r == st
    ensures cs != [] && cs[|cs| - 1] == StopAndClearCall ==> r == Reset
  {
    if cs == [] then st
    else
      var st' := match cs[0]
        case StopAndClearCall => Reset
        case PlayCall => AfterPlay(st)
        case PauseCall => AfterPause(st)
        case _ => st;
      StateAfter(st', cs[1..])
  }

  /** Which end callback and context the calls leave, from the ones before
      them: the last registration, unless a later stopAndClear forgot it. */
  function LastRegistration(cb: Option<Handle>, ctx: Option<Handle>, cs: seq<PlaylistCall>): (Option<Handle>, Option<Handle>)
    decreases |cs|
  {
    if cs == [] then (cb, ctx)
    else match cs[0]
      case StopAndClearCall => LastRegistration(None, None, cs[1..])
      case RegisterEndCall(h, c) => LastRegistration(Some(h), c, cs[1..])
      case _ => LastRegistration(cb, ctx, cs[1..])
  }

  /** None of the calls registers an end callback. */
  predicate NoRegistration(cs: seq<PlaylistCall>)
  {
    forall i :: 0 <= i < |cs| ==> !cs[i].RegisterEndCall?
  }

  function AddsOf(names: seq<string>): (cs: seq<PlaylistCall>)
    ensures |cs| == |names|
    ensures forall i :: 0 <= i < |names| ==> cs[i] == AddCall(names[i])
  {
    if names == [] then [] else [AddCall(names[0])] + AddsOf(names[1..])
  }

  // ---------------------------------------------------------------------
  // Lemmas about the ring
  // ---------------------------------------------------------------------

  /** An accepted add with at most N-2 items pending appends the name. */
  lemma AppendAtWrite(s: Snapshot, name: string)
    requires Consistent(s)
    requires |Pending(s)| <= |s.slots| - 2
    ensures var s' := s.(slots := s.slots[s.write := name], write := Advance(s.write, |s.slots|));
            var r := if s'.read < 0 then s'.(read := 0) else s';
            Pending(r) == Pending(s) + [name]
  {
    var n := |s.slots|;
    var w' := Advance(s.write, n);
    var slots' := s.slots[s.write := name];
    var s' := s.(slots := slots', write := w');
    var r := if s'.read < 0 then s'.(read := 0) else s';
    var p := Pending(s);
    if s.read < 0 {
      assert s.write == 0 && w' == 1;
      assert Pending(r) == slots'[0..1];
    } else if s.read <= s.write {
      assert p == s.slots[s.read..s.write];
      if w' == 0 {
        assert s.write == n - 1;
        assert s.read > 0;
        assert Pending(r) == slots'[s.read..] + slots'[..0];
        assert slots'[s.read..] == s.slots[s.read..s.write] + [name];
      } else {
        assert w' == s.write + 1;
        assert Pending(r) == slots'[s.read..w'];
        assert slots'[s.read..w'] == s.slots[s.read..s.write] + [name];
      }
    } else {
      assert p == s.slots[s.read..] + s.slots[..s.write];
      assert w' == s.write + 1 && w' < s.read;
      assert Pending(r) == slots'[s.read..] + slots'[..w'];
      assert slots'[s.read..] == s.slots[s.read..];
      assert slots'[..w'] == s.slots[..s.write] + [name];
    }
  }

  /** The intended full test is "N-1 items pending". */
  lemma FullIntendedIsCount(s: Snapshot)
    requires Consistent(s)
    ensures FullIntended(s) <==> |Pending(s)| == |s.slots| - 1
  {
    var n, r, w := |s.slots|, s.read, s.write;
    assert |Pending(s)| == PendingCount(n, r, w);
    if r >= 0 {
      if w + 1 < n {
        assert Advance(w, n) == w + 1;
        if r <= w {
          assert PendingCount(n, r, w) == w - r;
        } else {
          assert PendingCount(n, r, w) == w - r + n;
        }
      } else {
        assert Advance(w, n) == 0;
        assert PendingCount(n, r, w) == w - r;
      }
    }
  }

  /** Consuming takes the head of the pending items. */
  lemma ConsumeAtRead(s: Snapshot)
    requires Consistent(s) && s.read >= 0 && s.read != s.write
    ensures Pending(s.(read := Advance(s.read, |s.slots|))) == Pending(s)[1..]
  {
    var n := |s.slots|;
    var r' := Advance(s.read, n);
    var t := s.(read := r');
    if s.read < s.write {
      assert Pending(s) == s.slots[s.read..s.write];
      assert Pending(t) == s.slots[r'..s.write];
    } else {
      assert Pending(s) == s.slots[s.read..] + s.slots[..s.write];
      if r' == 0 {
        if s.write == 0 {
          assert Pending(t) == [];
        } else {
          assert Pending(t) == s.slots[0..s.write];
        }
      } else {
        assert Pending(t) == s.slots[r'..] + s.slots[..s.write];
      }
    }
  }

  /** FIFO while at most N-2 items are pending: an accepted add appends. */
  lemma EnqueueAppends(s: Snapshot, name: string, lockAcquired: bool)
    requires Consistent(s)
    requires |Pending(s)| <= |s.slots| - 2
    ensures var (r, ok) := Enqueue(s, name, lockAcquired);
            ok <==> |name| <= MaxFilenameLength && lockAcquired
    ensures var (r, ok) := Enqueue(s, name, lockAcquired);
            Pending(r) == if ok then Pending(s) + [name] else Pending(s)
  {
    if |name| <= MaxFilenameLength && lockAcquired {
      AppendAtWrite(s, name);
    }
  }

  /** Outside the proved range: with read at 0 and write at N-1, the as
      written add is accepted and the queue then looks empty. */
  lemma {:induction false} FullTestMissesWrap(s: Snapshot, name: string)
    requires Consistent(s) && s.read == 0 && s.write == |s.slots| - 1
    requires |name| <= MaxFilenameLength
    ensures |Pending(s)| == |s.slots| - 1
    ensures Enqueue(s, name, true).1 && Pending(Enqueue(s, name, true).0) == []
  {
    assert (s.write - s.read) % |s.slots| == |s.slots| - 1;
  }

  /** The capacity-3 scenario ("a", "b", "c", then "d") as written: all
      four adds are accepted and only "d" is left to play. */
  lemma CapacityThreeScenario(s: Snapshot)
    requires Consistent(s) && |s.slots| == 3 && s.read == -1
    ensures var s1 := Enqueue(s, "a", true);
            var s2 := Enqueue(s1.0, "b", true);
            var s3 := Enqueue(s2.0, "c", true);
            var s4 := Enqueue(s3.0, "d", true);
            s1.1 && s2.1 && s3.1 && s4.1 && Pending(s3.0) == [] && Pending(s4.0) == ["d"]
  {
    var s1 := Enqueue(s, "a", true);
    var s2 := Enqueue(s1.0, "b", true);
    var s3 := Enqueue(s2.0, "c", true);
    assert s3.0.read == 0 && s3.0.write == 0;
    var s4 := Enqueue(s3.0, "d", true);
    assert s4.0.read == 0 && s4.0.write == 1;
    assert Pending(s4.0) == s4.0.slots[0..1];
  }

  /** With the intended test the same scenario keeps "a" and "b" and
      refuses "c" and "d" (one slot stays free). */
  lemma CapacityThreeIntended(s: Snapshot)
    requires Consistent(s) && |s.slots| == 3 && s.read == -1
    ensures var s1 := EnqueueIntended(s, "a", true);
            var s2 := EnqueueIntended(s1.0, "b", true);
            var s3 := EnqueueIntended(s2.0, "c", true);
            s1.1 && s2.1 && !s3.1 && Pending(s3.0) == ["a", "b"]
  {
  }

  /** A full ring refuses every add and stays as it was. */
  lemma EnqueueFullIsIdempotent(s: Snapshot, name: string, lockAcquired: bool)
    requires Consistent(s) && s.read >= 1 && |Pending(s)| == |s.slots| - 1
    ensures Enqueue(s, name, lockAcquired) == (s, false)
  {
    assert PendingCount(|s.slots|, s.read, s.write) == |s.slots| - 1;
    assert s.write == s.read - 1;
  }

  /** Splitting the head off the second part of a concatenation. */
  lemma ConcatHead<T>(p: seq<T>, xs: seq<T>)
    requires xs != []
    ensures p + [xs[0]] + xs[1..] == p + xs
  {
    assert [xs[0]] + xs[1..] == xs;
  }

  /** One accepted add, as the players issue it. */
  lemma AddStep(s: Snapshot, name: string)
    requires Consistent(s)
    requires |Pending(s)| <= |s.slots| - 2 && |name| <= MaxFilenameLength
    ensures Pending(ApplyCall(s, AddCall(name))) == Pending(s) + [name]
    ensures ApplyCall(s, AddCall(name)).state == s.state
    ensures ApplyCall(s, AddCall(name)).endCallback == s.endCallback
    ensures |ApplyCall(s, AddCall(name)).slots| == |s.slots|
  {
    EnqueueAppends(s, name, true);
  }

  lemma {:induction false} AddsAppend(s: Snapshot, names: seq<string>)
    requires Consistent(s)
    requires |Pending(s)| + |names| <= |s.slots| - 1
    requires forall i :: 0 <= i < |names| ==> |names[i]| <= MaxFilenameLength
    ensures Pending(ApplyCalls(s, AddsOf(names))) == Pending(s) + names
    ensures ApplyCalls(s, AddsOf(names)).state == s.state
    ensures ApplyCalls(s, AddsOf(names)).endCallback == s.endCallback
    decreases |names|
  {
    var cs := AddsOf(names);
    if names != [] {
      var rest := names[1..];
      assert cs[0] == AddCall(names[0]) && cs[1..] == AddsOf(rest);
      AddStep(s, names[0]);
      var s1 := ApplyCall(s, AddCall(names[0]));
      assert ApplyCalls(s, cs) == ApplyCalls(s1, AddsOf(rest));
      assert |Pending(s1)| + |rest| <= |s1.slots| - 1;
      assert forall i :: 0 <= i < |rest| ==> |rest[i]| <= MaxFilenameLength by {
        forall i | 0 <= i < |rest|
          ensures |rest[i]| <= MaxFilenameLength
        {
          assert rest[i] == names[i + 1];
        }
      }
      AddsAppend(s1, rest);
      ConcatHead(Pending(s), names);
    }
  }

  lemma {:induction false} ApplyCallsAppend(s: Snapshot, a: seq<PlaylistCall>, b: seq<PlaylistCall>)
    requires Consistent(s)
    ensures ApplyCalls(s, a + b) == ApplyCalls(ApplyCalls(s, a), b)
    decreases |a|
  {
    if a == [] {
      assert a + b == b;
    } else {
      assert (a + b)[0] == a[0];
      assert (a + b)[1..] == a[1..] + b;
      ApplyCallsAppend(ApplyCall(s, a[0]), a[1..], b);
    }
  }

  /** The players' idiom "stopAndClear; addFilename...; play" leaves exactly
      the added names queued (at most N-1 of them) and the playlist in Reset
      with no end callback, whatever it held before. */
  lemma ClearThenEnqueue(s: Snapshot, names: seq<string>)
    requires Consistent(s)
    requires |names| <= |s.slots| - 1
    requires forall i :: 0 <= i < |names| ==> |names[i]| <= MaxFilenameLength
    ensures var r := ApplyCalls(s, [StopAndClearCall] + AddsOf(names) + [PlayCall]);
            Pending(r) == names && r.state == Reset && r.endCallback.None?
  {
    var adds := AddsOf(names);
    var c := ApplyCall(s, StopAndClearCall);
    ApplyOne(s, StopAndClearCall);
    ApplyCallsAppend(s, [StopAndClearCall], adds);
    AddsAppend(c, names);
    var m := ApplyCalls(c, adds);
    assert Pending(m) == names by {
      assert [] + names == names;
    }
    ApplyCallsAppend(s, [StopAndClearCall] + adds, [PlayCall]);
    ApplyOne(m, PlayCall);
    PendingIgnoresState(m, AfterPlay(m.state));
  }

  lemma ApplyOne(s: Snapshot, c: PlaylistCall)
    requires Consistent(s)
    ensures ApplyCalls(s, [c]) == ApplyCall(s, c)
  {
    assert [c][1..] == [];
  }

  lemma PendingIgnoresState(s: Snapshot, st: PlaybackState)
    requires Consistent(s)
    ensures Pending(s.(state := st)) == Pending(s)
  {
  }

  /** getState after a run of calls depends only on the state before it. */
  lemma {:induction false} StateAfterCalls(s: Snapshot, cs: seq<PlaylistCall>)
    requires Consistent(s)
    ensures ApplyCalls(s, cs).state == StateAfter(s.state, cs)
    decreases |cs|
  {
    if cs != [] {
      StateAfterCalls(ApplyCall(s, cs[0]), cs[1..]);
    }
  }

  // ---------------------------------------------------------------------
  // Lemmas about the state machine and the loop
  // ---------------------------------------------------------------------

  /** pause twice from Playing or Paused is the identity on the state. */
  lemma PauseTwice(st: PlaybackState)
    requires st == Playing || st == Paused
    ensures AfterPause(AfterPause(st)) == st
  {
  }

  /** The end callback and context after a run of calls are the ones
      LastRegistration picks. */
  lemma {:induction false} RegistrationAfterCalls(s: Snapshot, cs: seq<PlaylistCall>)
    requires Consistent(s)
    ensures var r := ApplyCalls(s, cs);
            (r.endCallback, r.endContext) == LastRegistration(s.endCallback, s.endContext, cs)
    decreases |cs|
  {
    if cs != [] {
      RegistrationAfterCalls(ApplyCall(s, cs[0]), cs[1..]);
    }
  }

  lemma NoRegistrationTail(cs: seq<PlaylistCall>)
    requires cs != [] && NoRegistration(cs)
    ensures NoRegistration(cs[1..]) && !cs[0].RegisterEndCall?
  {
    forall i | 0 <= i < |cs| - 1
      ensures !cs[1..][i].RegisterEndCall?
    {
      assert cs[1..][i] == cs[i + 1];
    }
  }

  /** Calls that register nothing leave no end callback where there was
      none, and no context either where there was none. */
  lemma {:induction false} NoRegistrationNoCallback(ctx: Option<Handle>, cs: seq<PlaylistCall>)
    requires NoRegistration(cs)
    ensures LastRegistration(None, ctx, cs).0.None?
    ensures ctx.None? ==> LastRegistration(None, ctx, cs).1.None?
    decreases |cs|
  {
    if cs != [] {
      NoRegistrationTail(cs);
      if cs[0].StopAndClearCall? {
        NoRegistrationNoCallback(None, cs[1..]);
      } else {
        NoRegistrationNoCallback(ctx, cs[1..]);
      }
    }
  }

  /** Calls that register nothing never read the end context: from two
      playlists that differ only in it, they reach playlists that differ
      only in it. */
  lemma {:induction false} ContextIrrelevant(a: Snapshot, b: Snapshot, cs: seq<PlaylistCall>)
    requires Consistent(a) && Consistent(b) && a.(endContext := None) == b.(endContext := None)
    requires NoRegistration(cs)
    ensures ApplyCalls(a, cs).(endContext := None) == ApplyCalls(b, cs).(endContext := None)
    decreases |cs|
  {
    if cs != [] {
      NoRegistrationTail(cs);
      var a1, b1 := ApplyCall(a, cs[0]), ApplyCall(b, cs[0]);
      assert a1.(endContext := None) == b1.(endContext := None);
      ContextIrrelevant(a1, b1, cs[1..]);
    }
  }

  /** Draining fires the callback at most once: after the tick that fires
      it, a later tick fires again only if the callback itself registered
      one. */
  lemma DrainFiresOnce(s: Snapshot, l1: bool, o1: StepOutcome, cs: seq<PlaylistCall>,
                       l2: bool, o2: StepOutcome, cs2: seq<PlaylistCall>)
    requires Consistent(s)
    requires Tick(s, l1, o1, cs).1.Some?
    ensures NoRegistration(cs) ==> Tick(Tick(s, l1, o1, cs).0, l2, o2, cs2).1.None?
  {
    if NoRegistration(cs) {
      NoRegistrationNoCallback(s.endContext, cs);
    }
  }

  /** A tick with no pipeline on an empty queue, in a playing, paused or
      skipping state, stops playback and fires the callback exactly when one
      was registered. The callback sees the stopped playlist with its own
      registration cleared and its context still set; what it does then is
      the result, with the context cleared after it returns. */
  lemma DrainStops(s: Snapshot, lockAcquired: bool, outcome: StepOutcome, reaction: seq<PlaylistCall>)
    requires Consistent(s) && !s.decoder && s.state != Stopped && s.state != Reset
    requires Pending(s) == []
    ensures var (r, fired) := Tick(s, lockAcquired, outcome, reaction);
            && (fired.Some? <==> s.endCallback.Some?)
            && (fired.None? ==> r.state == Stopped && !r.decoder && Pending(r) == [] && r.endCallback.None?)
            && (fired.Some? ==> r == ApplyCalls(s.(state := Stopped, endCallback := None), reaction).(endContext := None))
  {
  }

  /** A lock timeout in consumeItem is taken for an empty queue: the
      playlist stops, and the end callback fires, even though items are
      pending. */
  lemma LockTimeoutLooksLikeDrain(s: Snapshot, outcome: StepOutcome, reaction: seq<PlaylistCall>)
    requires Consistent(s) && !s.decoder && s.state == Playing
    ensures var (r, fired) := Tick(s, false, outcome, reaction);
            && (fired.Some? <==> s.endCallback.Some?)
            && (fired.None? ==> r.state == Stopped && Pending(r) == Pending(s))
            && (fired.Some? ==> r == ApplyCalls(s.(state := Stopped, endCallback := None), reaction).(endContext := None))
  {
  }

  /** As written, an end callback that registers itself again with a
      context keeps its registration but loses the context: loop clears the
      context after the callback returns. With the context cleared before
      the call, as intended, it survives. */
  lemma ReRegisteredContextIsLost(s: Snapshot, lockAcquired: bool, outcome: StepOutcome, h: Handle, c: Handle)
    requires Consistent(s) && Tick(s, lockAcquired, outcome, [RegisterEndCall(h, Some(c))]).1.Some?
    ensures Tick(s, lockAcquired, outcome, [RegisterEndCall(h, Some(c))]).0.endCallback == Some(h)
    ensures Tick(s, lockAcquired, outcome, [RegisterEndCall(h, Some(c))]).0.endContext.None?
    ensures TickIntended(s, lockAcquired, outcome, [RegisterEndCall(h, Some(c))]).0.endContext == Some(c)
  {
    var cs := [RegisterEndCall(h, Some(c))];
    assert LastRegistration(None, s.endContext, cs) == (Some(h), Some(c)) by {
      assert cs[1..] == [];
    }
    assert LastRegistration(None, None, cs) == (Some(h), Some(c)) by {
      assert cs[1..] == [];
    }
  }

  /** The intended order changes nothing for a callback that registers
      nothing: both ticks then agree entirely. */
  lemma IntendedAgreesWithoutRegistration(s: Snapshot, lockAcquired: bool, outcome: StepOutcome, reaction: seq<PlaylistCall>)
    requires Consistent(s) && NoRegistration(reaction)
    ensures TickIntended(s, lockAcquired, outcome, reaction) == Tick(s, lockAcquired, outcome, reaction)
  {
    var (t, fired) := Tick(s, lockAcquired, outcome, reaction);
    if fired.Some? {
      var seen := s.(state := Stopped, endCallback := None);
      var cleared := seen.(endContext := None);
      assert ApplyCalls(seen, []) == seen;
      assert Tick(s, lockAcquired, outcome, []).0 == cleared;
      ContextIrrelevant(seen, cleared, reaction);
      RegistrationAfterCalls(cleared, reaction);
      NoRegistrationNoCallback(None, reaction);
    }
  }

  /** With no pipeline, a playing tick dequeues the head and builds its chain
      exactly when the name is supported; otherwise the name is dropped. */
  lemma PlayingTickStartsHead(s: Snapshot, outcome: StepOutcome, reaction: seq<PlaylistCall>)
    requires Consistent(s) && !s.decoder && s.state == Playing && Pending(s) != []
    ensures var (r, fired) := Tick(s, true, outcome, reaction);
            fired.None? && Pending(r) == Pending(s)[1..] && r.state == Playing
            && (r.decoder <==> Classify(Pending(s)[0]) != Unsupported && outcome == Continue)
  {
  }

  /** Reset and Skipping ticks on a running pipeline tear it down and go
      back to Playing; the queue is untouched. */
  lemma ResetOrSkipTearsDown(s: Snapshot, lockAcquired: bool, outcome: StepOutcome, reaction: seq<PlaylistCall>)
    requires Consistent(s) && (s.state == Reset || (s.state == Skipping && s.decoder))
    ensures Tick(s, lockAcquired, outcome, reaction) == (Teardown(s).(state := Playing), None)
  {
  }

  /** A skip asked for with no pipeline is not a no-op: the next tick
      consumes the head of the queue and throws it away. */
  lemma SkipWithoutPipelineDropsHead(s: Snapshot, outcome: StepOutcome, reaction: seq<PlaylistCall>)
    requires Consistent(s) && !s.decoder && s.state == Skipping && Pending(s) != []
    ensures var (r, fired) := Tick(s, true, outcome, reaction);
            fired.None? && !r.decoder && Pending(r) == Pending(s)[1..]
  {
  }

  /** Paused ticks with a pipeline change nothing. */
  lemma PausedTickIsNoop(s: Snapshot, lockAcquired: bool, outcome: StepOutcome, reaction: seq<PlaylistCall>)
    requires Consistent(s) && s.state == Paused && s.decoder
    ensures Tick(s, lockAcquired, outcome, reaction) == (s, None)
  {
  }

  /** Teardown twice is teardown once. */
  lemma TeardownIdempotent(s: Snapshot)
    requires Consistent(s)
    ensures Teardown(Teardown(s)) == Teardown(s)
  {
  }

  /** pause, pause while playing a pipeline: the state comes back and the
      pipeline is never torn down by a tick in between. */
  lemma PauseResumeKeepsPipeline(s: Snapshot, lockAcquired: bool, outcome: StepOutcome, reaction: seq<PlaylistCall>)
    requires Consistent(s) && s.state == Playing && s.decoder
    ensures var p := s.(state := AfterPause(s.state));
            var t := Tick(p, lockAcquired, outcome, reaction).0;
            t.decoder && t.(state := AfterPause(t.state)) == s
  {
  }

  /** skip while playing a pipeline with more items queued: the next tick
      tears it down, the one after starts the next item, and the end
      callback is not fired. */
  lemma SkipAdvancesToNext(s: Snapshot, outcome: StepOutcome, reaction: seq<PlaylistCall>)
    requires Consistent(s) && s.state == Playing && s.decoder && Pending(s) != []
    requires Classify(Pending(s)[0]) != Unsupported
    ensures var k := s.(state := Skipping);
            var (t1, f1) := Tick(k, true, outcome, reaction);
            var (t2, f2) := Tick(t1, true, Continue, reaction);
            f1.None? && f2.None? && !t1.decoder && t2.decoder && t2.state == Playing
            && Pending(t2) == Pending(s)[1..]
  {
  }

  /** After stopAndClear, whatever came before, two ticks reach Stopped with
      no pipeline, an empty queue, and no callback fired. */
  lemma StopAndClearSettles(s: Snapshot, o1: StepOutcome, o2: StepOutcome, reaction: seq<PlaylistCall>)
    requires Consistent(s)
    ensures var c := Clear(s, true);
            var (t1, f1) := Tick(c, true, o1, reaction);
            var (t2, f2) := Tick(t1, true, o2, reaction);
            f1.None? && f2.None? && t1.state == Playing && !t1.decoder
            && t2.state == Stopped && !t2.decoder && Pending(t2) == []
  {
  }

  /** As written, skip from Stopped with items queued starts playback at
      the second item: the first is built and torn down in the same tick. */
  lemma SkipFromStoppedPlaysSecond(s: Snapshot, outcome: StepOutcome, reaction: seq<PlaylistCall>)
    requires Consistent(s) && s.state == Stopped && !s.decoder && |Pending(s)| >= 2
    requires Classify(Pending(s)[0]) != Unsupported
    ensures var (t, f) := Tick(s.(state := Skipping), true, outcome, reaction);
            t.state == Playing && Pending(t) == Pending(s)[1..]
  {
  }

  /** With the intended skip, a stopped playlist stays stopped on the next
      tick and keeps its queue. */
  lemma SkipIntendedFromStoppedIsNoop(s: Snapshot, outcome: StepOutcome, reaction: seq<PlaylistCall>)
    requires Consistent(s) && s.state == Stopped
    ensures var (t, f) := Tick(s.(state := AfterSkipIntended(s.state)), true, outcome, reaction);
            t.state == Stopped && Pending(t) == Pending(s) && f.None?
  {
  }

  // ---------------------------------------------------------------------
  // The object
  // ---------------------------------------------------------------------

  class Playlist {
    var items: array<string>
    var readMarker: int
    var writeMarker: int
    var state: PlaybackState
    var endCallback: Option<Handle>
    var endContext: Option<Handle>
    var base: bool
    var source: bool
    var decoder: bool

    ghost function Model(): Snapshot
      reads this, items
    {
      Snapshot(items[..], readMarker, writeMarker, state, endCallback, endContext, base, source, decoder)
    }

    ghost predicate Valid()
      reads this, items
    {
      Consistent(Model())
    }

    /** Playlist(output, maxEntries): an empty ring of maxEntries slots. */
    constructor (maxEntries: int)
      requires maxEntries >= 1
      ensures Valid() && fresh(items) && items.Length == maxEntries
      ensures Pending(Model()) == [] && readMarker == -1 && writeMarker == 0
      ensures state == Stopped && endCallback.None? && endContext.None? && !decoder
    {
      items := new string[maxEntries](_ => "");
      readMarker := -1;
      writeMarker := 0;
      state := Stopped;
      endCallback, endContext := None, None;
      base, source, decoder := false, false, false;
    }

    method AddFilename(filename: string, lockAcquired: bool) returns (ok: bool)
      requires Valid()
      modifies this, items
      ensures Valid() && items == old(items)
      ensures (Model(), ok) == Enqueue(old(Model()), filename, lockAcquired)
    {
      if |filename| > MaxFilenameLength {
        return false;
      }
      if !lockAcquired {
        return false;
      }
      if writeMarker == readMarker - 1 {
        return false;
      }
      items[writeMarker] := filename;
      writeMarker := writeMarker + 1;
      if writeMarker >= items.Length {
        writeMarker := 0;
      }
      if readMarker < 0 {
        readMarker := 0;
      }
      ok := true;
    }

    method ConsumeItem(lockAcquired: bool) returns (item: Option<string>)
      requires Valid()
      modifies this`readMarker
      ensures Valid()
      ensures (Model(), item) == Consume(old(Model()), lockAcquired)
    {
      if !lockAcquired {
        return None;
      }
      if readMarker == writeMarker {
        return None;
      }
      if readMarker >= 0 {
        item := Some(items[readMarker]);
        readMarker := readMarker + 1;
        if readMarker >= items.Length {
          readMarker := 0;
        }
      } else {
        return None;
      }
    }

    function GetState(): PlaybackState
      reads this
    {
      state
    }

    method Play()
      modifies this`state
      ensures state == AfterPlay(old(state))
    {
      if state == Reset {
        return;
      }
      if state == Skipping {
        state := Playing;
        return;
      }
      if state == Playing {
        return;
      }
      state := Playing;
    }

    method Pause()
      modifies this`state
      ensures state == AfterPause(old(state))
    {
      if state == Playing {
        state := Paused;
        return;
      }
      if state == Paused {
        state := Playing;
        return;
      }
    }

    method Skip()
      modifies this`state
      ensures state == Skipping
    {
      var condition := state == Playing;
      if !condition {
        state := Paused;          // `state = PlaybackStatePaused` in the condition
        condition := true;        // ... whose value, Paused, is non-zero
      }
      if condition {
        state := Skipping;
      }
    }

    method StopAndClear(lockAcquired: bool)
      requires Valid()
      modifies this
      ensures Valid() && items == old(items)
      ensures Model() == Clear(old(Model()), lockAcquired)
    {
      if !lockAcquired {
        return;
      }
      readMarker := -1;
      writeMarker := 0;
      state := Reset;
      endCallback := None;
      endContext := None;
    }

    method RegisterPlaylistEndCallback(callback: Handle, context: Option<Handle>)
      requires Valid()
      modifies this`endCallback, this`endContext
      ensures Valid()
      ensures Model() == RegisterEnd(old(Model()), callback, context)
    {
      endCallback := Some(callback);
      endContext := context;
    }

    /** Builds base and wrapping source for a stream or an MP3 file. */
    method SetupAudioSourceForFile(filename: string) returns (ok: bool)
      requires !base && !source
      modifies this`base, this`source
      ensures ok <==> Classify(filename) != Unsupported
      ensures base == ok && source == ok
    {
      if StartsWith(filename, "http://") {
        base := true;
        source := true;
        return true;
      }
      if EndsWithIgnoreCase(filename, ".mp3") {
        base := true;
        source := true;
        return true;
      }
      return false;
    }

    method SetupDecoderForFile(filename: string) returns (ok: bool)
      requires !decoder
      modifies this`decoder
      ensures ok <==> Classify(filename) != Unsupported
      ensures decoder == ok
    {
      if EndsWithIgnoreCase(filename, ".mp3") || StartsWith(filename, "http://") {
        decoder := true;
        return true;
      }
      return false;
    }

    method DestroyAudioChain()
      requires Valid()
      modifies this`decoder, this`source, this`base
      ensures Valid()
      ensures Model() == Teardown(old(Model()))
    {
      if decoder {
        decoder := false;
      }
      if source {
        source := false;
      }
      if base {
        base := false;
      }
    }

    /** One call a player or a callback makes on the playlist, every lock
        taken at the first attempt. */
    method Perform(c: PlaylistCall)
      requires Valid()
      modifies this, items
      ensures Valid() && items == old(items)
      ensures Model() == ApplyCall(old(Model()), c)
    {
      match c
      case StopAndClearCall => StopAndClear(true);
      case AddCall(name) => var _ := AddFilename(name, true);
      case PlayCall => Play();
      case PauseCall => Pause();
      case RegisterEndCall(cb, ctx) => RegisterPlaylistEndCallback(cb, ctx);
    }

    /** The calls, one after the other. */
    method RunCalls(cs: seq<PlaylistCall>)
      requires Valid()
      modifies this, items
      ensures Valid() && items == old(items)
      ensures Model() == ApplyCalls(old(Model()), cs)
    {
      var i := 0;
      while i < |cs|
        invariant 0 <= i <= |cs|
        invariant Valid() && items == old(items)
        invariant ApplyCalls(old(Model()), cs) == ApplyCalls(Model(), cs[i..])
      {
        assert cs[i..][1..] == cs[i + 1..];
        Perform(cs[i]);
        i := i + 1;
      }
    }

    /** The end-of-playlist branch of loop: the callback is cleared, called
        with the context (`reaction` is what it does to the playlist), and
        the context is cleared after it returns. */
    method FireEndCallback(reaction: seq<PlaylistCall>) returns (fired: Invocation)
      requires Valid() && endCallback.Some?
      modifies this, items
      ensures Valid() && items == old(items)
      ensures fired == Invocation(old(endCallback).value, old(endContext))
      ensures Model() == ApplyCalls(old(Model()).(endCallback := None), reaction).(endContext := None)
    {
      var saved := endCallback.value;
      endCallback := None;
      fired := Invocation(saved, endContext);
      ghost var seen := Model();
      RunCalls(reaction);     // savedCallback(this->endContext)
      ghost var after := Model();
      assert after == ApplyCalls(seen, reaction);
      endContext := None;
      assert Model() == after.(endContext := None);
    }

    /** The dequeue-and-build half of loop. A fired end callback runs while
        this call is still in progress: `reaction` is what it does to the
        playlist. */
    method FetchNext(lockAcquired: bool, reaction: seq<PlaylistCall>) returns (fired: Option<Invocation>, go: bool)
      requires Valid()
      modifies this, items
      ensures Valid() && items == old(items)
      ensures (Model(), fired, go) == Fetch(old(Model()), lockAcquired, reaction)
    {
      ghost var m0 := Model();
      fired, go := None, true;
      if !decoder && state != Stopped && state != Reset {
        var filename := ConsumeItem(lockAcquired);
        if filename.None? {
          assert Model() == m0;
          if state != Stopped {
            state := Stopped;
            if endCallback.Some? {
              ghost var stopped := Model();
              assert stopped == m0.(state := Stopped);
              var invocation := FireEndCallback(reaction);
              fired := Some(invocation);
            }
          }
          return fired, false;
        }
        go := StartItem(filename.value);
      }
    }

    /** The chain-building part of loop for a dequeued item: an unsupported
        name is torn down and dropped. */
    method StartItem(filename: string) returns (ok: bool)
      requires Valid() && !decoder
      modifies this`base, this`source, this`decoder
      ensures Valid()
      ensures ok <==> Classify(filename) != Unsupported
      ensures Model() == if ok then old(Model()).(base := true, source := true, decoder := true)
                         else Teardown(old(Model()))
    {
      ok := SetupAudioSourceForFile(filename);
      if !ok {
        DestroyAudioChain();
        return false;
      }
      ok := SetupDecoderForFile(filename);
      // The decoder test accepts exactly the names the source test
      // accepted, so the source's bail-out after it is not reachable here.
      assert ok;
    }

    /** Playlist::loop. The end callback, when it fires, is returned, and
        `reaction`, what it does to the playlist, has been carried out. */
    method Loop(lockAcquired: bool, outcome: StepOutcome, reaction: seq<PlaylistCall>) returns (fired: Option<Invocation>)
      requires Valid()
      modifies this, items
      ensures Valid() && items == old(items)
      ensures (Model(), fired) == Tick(old(Model()), lockAcquired, outcome, reaction)
    {
      var go;
      fired, go := FetchNext(lockAcquired, reaction);
      if !go {
        return;
      }
      match state
      case Reset =>
        DestroyAudioChain();
        state := Playing;
      case Stopped =>
        DestroyAudioChain();
      case Skipping =>
        DestroyAudioChain();
        state := Playing;
      case Paused =>
        return;
      case Playing =>
        if decoder && outcome == Finished {
          DestroyAudioChain();
        }
    }
  }
}
