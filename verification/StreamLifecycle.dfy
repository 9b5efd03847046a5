/**
 * Opening and losing the client's stream.  A disconnect callback is made by the goroutine of a
 * stream, at most once per stream.  `GetStream` and the callback are atomic steps at first; a second
 * step system then divides `GetStream` into its three assignments, between which the callback may fall.
 */
module StreamLifecycle {
  import opened Collections

  type Id = nat

  datatype Client = Client(
    v1: Option<Id>,
    v1alpha: Option<Id>,
    disconnected: Option<Id>,     // the current disconnect channel
    closes: multiset<Id>,         // history: how often each channel was closed
    live: set<Id>,                // streams whose goroutine has not yet called back
    streams: nat,                 // streams and channels are numbered as they are created
    channels: nat)

  const NEW := Client(None, None, None, multiset{}, {}, 0, 0)

  predicate Connected(c: Client) { c.v1.Some? || c.v1alpha.Some? }

  /** The stream the client would use for its next request. */
  function Current(c: Client): set<Id> {
    if c.v1.Some? then {c.v1.value} else if c.v1alpha.Some? then {c.v1alpha.value} else {}
  }

  /** Whether the channel returned by `Disconnected` is open. */
  predicate DisconnectedOpen(c: Client) {
    c.disconnected.Some? && c.closes[c.disconnected.value] == 0
  }

  datatype Event = GetStream(v1Answers: bool, v1alphaAnswers: bool) | Callback(stream: Id)

  predicate Enabled(c: Client, e: Event) {
    e.Callback? ==> e.stream in c.live
  }

  function Step(c: Client, e: Event): Client
    requires Enabled(c, e)
  {
    match e
    case GetStream(v1Answers, v1alphaAnswers) =>
      if Connected(c) || (!v1Answers && !v1alphaAnswers) then c
      else
        var connecting := c.(disconnected := Some(c.channels), channels := c.channels + 1,
                         live := c.live + {c.streams}, streams := c.streams + 1);
        if v1Answers then connecting.(v1 := Some(c.streams)) else connecting.(v1alpha := Some(c.streams))
    case Callback(x) => StreamDisconnected(c, x)
  }

  function StreamDisconnected(c: Client, x: Id): Client {
    c.(closes := if c.disconnected.Some? then c.closes + multiset{c.disconnected.value} else c.closes,
       v1 := None, v1alpha := None, live := c.live - {x})
  }

  ghost predicate IsRun(c: Client, events: seq<Event>, d: Client)
    decreases |events|
  {
    if events == [] then c == d
    else Enabled(c, events[0]) && IsRun(Step(c, events[0]), events[1..], d)
  }

  ghost predicate Inv(c: Client) {
    && (c.v1.None? || c.v1alpha.None?)
    && c.live == Current(c)
    && (Connected(c) <==> DisconnectedOpen(c))
    && (forall ch :: c.closes[ch] <= 1 && (c.closes[ch] > 0 ==> ch < c.channels))
    && (c.disconnected.Some? ==> c.disconnected.value < c.channels)
  }

  lemma {:induction false} RunKeepsInv(c: Client, events: seq<Event>, d: Client)
    requires Inv(c) && IsRun(c, events, d)
    ensures Inv(d)
    decreases |events|
  {
    if events != [] {
      RunKeepsInv(Step(c, events[0]), events[1..], d);
    }
  }

  /** A disconnected client gets a stream exactly if one of the two dials succeeds, v1 being preferred,
      together with a new channel; a connected one keeps what it has. */
  lemma GetStreamConnects(c: Client, v1Answers: bool, v1alphaAnswers: bool)
    requires Inv(c)
    ensures var d := Step(c, GetStream(v1Answers, v1alphaAnswers));
            if Connected(c) then d == c
            else
              && (Connected(d) <==> v1Answers || v1alphaAnswers)
              && d.v1 == (if v1Answers then Some(c.streams) else None)
              && d.v1alpha == (if !v1Answers && v1alphaAnswers then Some(c.streams) else None)
              && d.closes == c.closes && (!Connected(d) ==> d == c)
              && (Connected(d) ==> d.disconnected == Some(c.channels) && d.channels == c.channels + 1
                                   && d.streams == c.streams + 1 && d.live == {c.streams})
  {
  }

  /** Every channel but the latest is closed, once. */
  ghost predicate ChannelsInv(c: Client) {
    && c.disconnected == (if c.channels == 0 then None else Some(c.channels - 1))
    && forall ch :: 0 <= ch < c.channels - 1 ==> c.closes[ch] == 1
  }

  lemma StepKeepsChannels(c: Client, e: Event)
    requires Inv(c) && ChannelsInv(c) && Enabled(c, e)
    ensures Inv(Step(c, e)) && ChannelsInv(Step(c, e))
  {
  }

  lemma {:induction false} RunKeepsChannels(c: Client, events: seq<Event>, d: Client)
    requires Inv(c) && ChannelsInv(c) && IsRun(c, events, d)
    ensures ChannelsInv(d)
    decreases |events|
  {
    hide Step, Inv, ChannelsInv, Enabled;
    if events != [] {
      StepKeepsChannels(c, events[0]);
      RunKeepsChannels(Step(c, events[0]), events[1..], d);
    }
  }

  /** Over every run, each channel that was handed out is closed exactly once when its stream is lost:
      all but that of the current stream are. */
  lemma EveryLossIsSignalled(events: seq<Event>, d: Client, ch: Id)
    requires IsRun(NEW, events, d) && ch < d.channels
    ensures d.closes[ch] == if Connected(d) && ch == d.channels - 1 then 0 else 1
    ensures d.disconnected == Some(d.channels - 1)
  {
    RunKeepsInv(NEW, events, d);
    RunKeepsChannels(NEW, events, d);
  }

  /** Over every run: at most one stream is set; the client is connected exactly while its disconnect
      channel is open; no channel is closed twice; and a callback can only come from the current stream. */
  lemma LifecycleIsSound(events: seq<Event>, d: Client)
    requires IsRun(NEW, events, d)
    ensures d.v1.None? || d.v1alpha.None?
    ensures Connected(d) <==> DisconnectedOpen(d)
    ensures forall ch :: d.closes[ch] <= 1
    ensures forall x :: Enabled(d, Callback(x)) <==> x in Current(d)
  {
    RunKeepsInv(NEW, events, d);
  }

  // ---------------------------------------------------------------- without atomicity

  /** The two ways of opening a stream perform the same three assignments in different orders. */
  datatype Branch = V1 | V1alpha

  datatype Stage = StartGoroutine | SetStream | MakeChannel

  function Stages(b: Branch): (stages: seq<Stage>)
    ensures |stages| == 3
  {
    match b
    case V1 => [StartGoroutine, SetStream, MakeChannel]
    case V1alpha => [MakeChannel, StartGoroutine, SetStream]
  }

  function Perform(c: Client, b: Branch, stage: Stage, x: Id): Client {
    match stage
    case StartGoroutine => c.(live := c.live + {x}, streams := c.streams + 1)
    case SetStream => if b.V1? then c.(v1 := Some(x)) else c.(v1alpha := Some(x))
    case MakeChannel => c.(disconnected := Some(c.channels), channels := c.channels + 1)
  }

  /** A call of `getStream` that has performed the first `done` stages of opening `stream`; after the
      third it only has to return the field in which the stream was stored. */
  datatype Opening = Opening(branch: Branch, stream: Id, done: nat)

  /** `returned` is the stream that the last completed call returned; none if that was nil. */
  datatype SplitState = SplitState(client: Client, opening: Option<Opening>, returned: Option<Id>)

  function Field(c: Client, b: Branch): Option<Id> {
    if b.V1? then c.v1 else c.v1alpha
  }

  datatype SplitEvent = Begin(branch: Branch) | Advance | CallBack(stream: Id)

  const SPLIT_NEW := SplitState(NEW, None, None)

  /** The client's mutex admits one opening at a time, but the callback does not take it. */
  predicate SplitEnabled(s: SplitState, e: SplitEvent) {
    match e
    case Begin(_) => s.opening.None? && !Connected(s.client)
    case Advance => s.opening.Some? && s.opening.value.done <= 3
    case CallBack(x) => x in s.client.live
  }

  function SplitStep(s: SplitState, e: SplitEvent): SplitState
    requires SplitEnabled(s, e)
  {
    match e
    case Begin(b) => s.(opening := Some(Opening(b, s.client.streams, 0)))
    case Advance =>
      var o := s.opening.value;
      if o.done == 3 then s.(opening := None, returned := Field(s.client, o.branch))
      else
        s.(client := Perform(s.client, o.branch, Stages(o.branch)[o.done], o.stream), opening := Some(o.(done := o.done + 1)))
    case CallBack(x) => s.(client := StreamDisconnected(s.client, x))
  }

  ghost predicate IsSplitRun(s: SplitState, events: seq<SplitEvent>, t: SplitState)
    decreases |events|
  {
    if events == [] then s == t
    else SplitEnabled(s, events[0]) && IsSplitRun(SplitStep(s, events[0]), events[1..], t)
  }

  /** No stage of an opening is still to be performed. */
  predicate AtRest(s: SplitState) {
    s.opening.Some? ==> s.opening.value.done == 3
  }

  /** Whenever no stage is still to be performed, the lifecycle invariant holds. */
  ghost predicate SoundAtRest(s: SplitState, events: seq<SplitEvent>)
    decreases |events|
  {
    && (AtRest(s) ==> Inv(s.client))
    && (events != [] && SplitEnabled(s, events[0]) ==> SoundAtRest(SplitStep(s, events[0]), events[1..]))
  }

  /** No stream calls back before its opening is complete. */
  ghost predicate NoEarlyCallback(s: SplitState, events: seq<SplitEvent>)
    decreases |events|
  {
    events != [] && SplitEnabled(s, events[0]) ==>
      !(events[0].CallBack? && !AtRest(s)) && NoEarlyCallback(SplitStep(s, events[0]), events[1..])
  }

  ghost function Partial(c: Client, b: Branch, k: nat): Client
    requires k <= 3
  {
    if k == 0 then c else Perform(Partial(c, b, k - 1), b, Stages(b)[k - 1], c.streams)
  }

  /** An undisturbed opening does in three stages what `GetStream` does in one step. */
  lemma UndisturbedOpeningIsAtomic(c: Client, b: Branch)
    requires !Connected(c)
    ensures Partial(c, b, 3) == Step(c, GetStream(b.V1?, true))
  {
    assert Partial(c, b, 1) == Perform(c, b, Stages(b)[0], c.streams);
    assert Partial(c, b, 2) == Perform(Partial(c, b, 1), b, Stages(b)[1], c.streams);
  }

  /** At rest and sound, or in the middle of an undisturbed opening of the sound client `base`. */
  ghost predicate OnTrack(s: SplitState, base: Client) {
    if AtRest(s) then Inv(s.client)
    else
      var o := s.opening.value;
      Inv(base) && !Connected(base) && o.done < 3 && o.stream == base.streams && s.client == Partial(base, o.branch, o.done)
  }

  /** The stream being opened has called back already: completing the opening breaks the invariant. */
  ghost predicate Doomed(s: SplitState) {
    && s.opening.Some? && s.opening.value.done < 3
    && StartGoroutine in Stages(s.opening.value.branch)[..s.opening.value.done]
    && s.client.live == {}
    && forall ch :: s.client.closes[ch] > 0 ==> ch < s.client.channels
  }

  lemma {:induction false} DoomedIsUnsound(s: SplitState, events: seq<SplitEvent>, t: SplitState)
    requires Doomed(s) && IsSplitRun(s, events, t) && AtRest(t)
    ensures !SoundAtRest(s, events)
    decreases |events|
  {
    assert events[0] == Advance;
    var next := SplitStep(s, Advance);
    if !AtRest(next) {
      DoomedIsUnsound(next, events[1..], t);
    }
  }

  lemma PartialOpening(c: Client, b: Branch, k: nat)
    requires k <= 3
    ensures var p := Partial(c, b, k);
            && p.live == c.live + (if StartGoroutine in Stages(b)[..k] then {c.streams} else {})
            && p.closes == c.closes && p.channels >= c.channels
            && (if MakeChannel in Stages(b)[..k] then p.disconnected == Some(c.channels) && p.channels > c.channels
                else p.disconnected == c.disconnected)
            && (SetStream !in Stages(b)[..k] ==> p.v1 == c.v1 && p.v1alpha == c.v1alpha)
  {
    var stages := Stages(b);
    assert Partial(c, b, 1) == Perform(c, b, stages[0], c.streams);
    assert Partial(c, b, 2) == Perform(Partial(c, b, 1), b, stages[1], c.streams);
    assert stages[..1] == [stages[0]] && stages[..2] == [stages[0], stages[1]] && stages[..3] == stages;
  }

  lemma EarlyCallbackDooms(s: SplitState, base: Client, x: Id)
    requires OnTrack(s, base) && !AtRest(s) && x in s.client.live
    ensures Doomed(SplitStep(s, CallBack(x)))
  {
    hide Partial, Stages, Perform;
    var o := s.opening.value;
    PartialOpening(base, o.branch, o.done);
    assert base.live == {};
  }

  lemma {:induction false} SafeExactlyFrom(s: SplitState, base: Client, events: seq<SplitEvent>, t: SplitState)
    requires OnTrack(s, base) && IsSplitRun(s, events, t) && AtRest(t)
    ensures SoundAtRest(s, events) <==> NoEarlyCallback(s, events)
    decreases |events|
  {
    hide Inv, Perform, StreamDisconnected, Doomed;
    if events != [] {
      var next := SplitStep(s, events[0]);
      if events[0].CallBack? && !AtRest(s) {
        EarlyCallbackDooms(s, base, events[0].stream);
        DoomedIsUnsound(next, events[1..], t);
      } else {
        StaysOnTrack(s, base, events[0]);
        SafeExactlyFrom(next, if events[0].Begin? then s.client else base, events[1..], t);
      }
    }
  }

  lemma StaysOnTrack(s: SplitState, base: Client, e: SplitEvent)
    requires OnTrack(s, base) && SplitEnabled(s, e) && (e.CallBack? ==> AtRest(s))
    ensures OnTrack(SplitStep(s, e), if e.Begin? then s.client else base)
  {
    if e == Advance && s.opening.value.done == 2 {
      UndisturbedOpeningIsAtomic(base, s.opening.value.branch);
    }
  }

  /** With both branches split into their stages, the lifecycle is sound whenever none of them is still
      to be performed, on exactly those runs in which no stream calls back before its opening is complete. */
  lemma SplitLifecycleIsSoundExactly(events: seq<SplitEvent>, t: SplitState)
    requires IsSplitRun(SPLIT_NEW, events, t) && AtRest(t)
    ensures SoundAtRest(SPLIT_NEW, events) <==> NoEarlyCallback(SPLIT_NEW, events)
  {
    SafeExactlyFrom(SPLIT_NEW, NEW, events, t);
  }

  // ---------------------------------------------------------------- what an early callback does

  /** The steps of a call whose stream calls back after `k` stages. */
  function OpeningWithCallback(b: Branch, k: nat, x: Id): seq<SplitEvent>
    requires k <= 3
  {
    [Begin(b)] + (seq(k, _ => Advance) + ([CallBack(x)] + seq(4 - k, _ => Advance)))
  }

  function At(c: Client, b: Branch, x: Id, k: nat, r: Option<Id>): SplitState {
    SplitState(c, Some(Opening(b, x, k)), r)
  }

  lemma {:induction false} OpeningSoFar(c: Client, b: Branch, j: nat, k: nat, r: Option<Id>, rest: seq<SplitEvent>, t: SplitState)
    requires j <= k <= 3
    ensures IsSplitRun(At(Partial(c, b, j), b, c.streams, j, r), seq(k - j, _ => Advance) + rest, t)
       <==> IsSplitRun(At(Partial(c, b, k), b, c.streams, k, r), rest, t)
    decreases k - j
  {
    hide Perform;
    var events := seq(k - j, _ => Advance) + rest;
    if j == k {
      assert events == rest;
    } else {
      assert events[1..] == seq(k - (j + 1), _ => Advance) + rest;
      OpeningSoFar(c, b, j + 1, k, r, rest, t);
    }
  }

  /** The client once the remaining stages are performed. */
  function Completed(c: Client, b: Branch, x: Id, k: nat): Client
    requires k <= 3
    decreases 3 - k
  {
    if k == 3 then c else Completed(Perform(c, b, Stages(b)[k], x), b, x, k + 1)
  }

  lemma {:induction false} OpeningCompletes(c: Client, b: Branch, x: Id, k: nat, r: Option<Id>, t: SplitState)
    requires k <= 3
    ensures IsSplitRun(At(c, b, x, k, r), seq(4 - k, _ => Advance), t)
       <==> t == SplitState(Completed(c, b, x, k), None, Field(Completed(c, b, x, k), b))
    decreases 3 - k
  {
    hide Perform, Field;
    assert seq(4 - k, _ => Advance)[1..] == seq(4 - (k + 1), _ => Advance);
    if k < 3 {
      OpeningCompletes(Perform(c, b, Stages(b)[k], x), b, x, k + 1, r, t);
    }
  }

  /** The run is possible as soon as the goroutine was started, and this is where it ends. */
  lemma CallbackOutcome(c: Client, r: Option<Id>, b: Branch, k: nat, t: SplitState)
    requires k <= 3 && Inv(c) && !Connected(c)
    ensures IsSplitRun(SplitState(c, None, r), OpeningWithCallback(b, k, c.streams), t)
       <==> k >= (if b.V1? then 1 else 2)
            && t.client == Completed(StreamDisconnected(Partial(c, b, k), c.streams), b, c.streams, k)
            && t.opening == None && t.returned == Field(t.client, b)
  {
    var x, s := c.streams, SplitState(c, None, r);
    StagePositions(b, k);
    var last := [CallBack(x)] + seq(4 - k, _ => Advance);
    assert Partial(c, b, 0) == c;
    PartialOpening(c, b, k);
    SplitRunStep(s, Begin(b), seq(k, _ => Advance) + last, t);
    SplitRunStep(At(Partial(c, b, k), b, x, k, r), CallBack(x), seq(4 - k, _ => Advance), t);
    hide Perform, Partial, Completed, StreamDisconnected, Stages, Field, IsSplitRun;
    OpeningSoFar(c, b, 0, k, r, last, t);
    OpeningCompletes(StreamDisconnected(Partial(c, b, k), x), b, x, k, r, t);
  }

  /** Where the three stages stand in the two branches. */
  lemma StagePositions(b: Branch, k: nat)
    requires k <= 3
    ensures StartGoroutine in Stages(b)[..k] <==> k >= if b.V1? then 1 else 2
    ensures SetStream in Stages(b)[..k] <==> k >= if b.V1? then 2 else 3
    ensures MakeChannel in Stages(b)[..k] <==> k >= if b.V1? then 3 else 1
  {
    var stages := Stages(b);
    assert stages[..1] == [stages[0]] && stages[..2] == [stages[0], stages[1]] && stages[..3] == stages;
  }

  lemma SplitRunStep(s: SplitState, e: SplitEvent, rest: seq<SplitEvent>, t: SplitState)
    ensures IsSplitRun(s, [e] + rest, t) <==> SplitEnabled(s, e) && IsSplitRun(SplitStep(s, e), rest, t)
  {
    assert ([e] + rest)[1..] == rest;
  }

  /** An early callback closes a channel for the second time exactly if a v1 stream is being opened
      after an earlier stream was lost. */
  lemma EarlyCallbackClosesTwice(c: Client, r: Option<Id>, b: Branch, k: nat, t: SplitState)
    requires Inv(c) && !Connected(c)
    requires k <= 3 && IsSplitRun(SplitState(c, None, r), OpeningWithCallback(b, k, c.streams), t)
    ensures (exists ch :: t.client.closes[ch] > 1) <==> k < 3 && b.V1? && c.disconnected.Some?
  {
    hide Partial, Completed, Perform;
    CallbackOutcome(c, r, b, k, t);
    PartialOpening(c, b, k);
    var called := StreamDisconnected(Partial(c, b, k), c.streams);
    CompletedKeepsCloses(called, b, c.streams, k);
    var stages := Stages(b);
    assert stages[..1] == [stages[0]] && stages[..2] == [stages[0], stages[1]] && stages[..3] == stages;
    assert MakeChannel in stages[..k] <==> b.V1alpha? || k == 3;
    if MakeChannel !in stages[..k] && c.disconnected.Some? {
      assert called.closes[c.disconnected.value] == 2;
    }
  }

  lemma {:induction false} CompletedKeepsCloses(c: Client, b: Branch, x: Id, k: nat)
    requires k <= 3
    ensures Completed(c, b, x, k).closes == c.closes
    decreases 3 - k
  {
    if k < 3 {
      CompletedKeepsCloses(Perform(c, b, Stages(b)[k], x), b, x, k + 1);
    }
  }

  /** It leaves the client connected to a dead stream, with no further step possible, exactly if it
      comes before the stream is stored. */
  lemma EarlyCallbackIsForgotten(c: Client, r: Option<Id>, b: Branch, k: nat, t: SplitState)
    requires Inv(c) && !Connected(c)
    requires k <= 3 && IsSplitRun(SplitState(c, None, r), OpeningWithCallback(b, k, c.streams), t)
    ensures (forall e :: !SplitEnabled(t, e)) <==> k < if b.V1? then 2 else 3
  {
    StagePositions(b, k);
    hide Partial, Completed;
    CallbackOutcome(c, r, b, k, t);
    PartialOpening(c, b, k);
    var called := StreamDisconnected(Partial(c, b, k), c.streams);
    assert called.live == {};
    CompletedStores(called, b, c.streams, k);
    if SetStream in Stages(b)[..k] {
      assert SplitEnabled(t, Begin(b));
    }
  }

  lemma CompletedStores(c: Client, b: Branch, x: Id, k: nat)
    requires k <= 3 && StartGoroutine in Stages(b)[..k] && !Connected(c)
    ensures Completed(c, b, x, k).live == c.live
    ensures Connected(Completed(c, b, x, k)) <==> SetStream !in Stages(b)[..k]
  {
    var stages := Stages(b);
    assert stages[..1] == [stages[0]] && stages[..2] == [stages[0], stages[1]] && stages[..3] == stages;
    if k < 3 {
      var next := Perform(c, b, stages[k], x);
      assert k < 2 ==> Completed(next, b, x, k + 1) == Completed(Perform(next, b, stages[k + 1], x), b, x, k + 2);
    }
  }

  // ---------------------------------------------------------------- what the call returns

  /** Every call that completes in this run returns a stream. */
  ghost predicate NoNilReturned(s: SplitState, events: seq<SplitEvent>)
    decreases |events|
  {
    events != [] && SplitEnabled(s, events[0]) ==>
      var next := SplitStep(s, events[0]);
      (s.opening.Some? && next.opening.None? ==> next.returned.Some?) && NoNilReturned(next, events[1..])
  }

  /** The stream of the call under way is stored: by the second stage of v1 or the third of v1alpha. */
  predicate Stored(s: SplitState) {
    s.opening.Some? && (if s.opening.value.branch.V1? then 2 else 3) <= s.opening.value.done <= 3
  }

  /** No stream calls back after it was stored and before the call that opened it returned. */
  ghost predicate NoCallbackWhenStored(s: SplitState, events: seq<SplitEvent>)
    decreases |events|
  {
    events != [] && SplitEnabled(s, events[0]) ==>
      !(events[0].CallBack? && Stored(s)) && NoCallbackWhenStored(SplitStep(s, events[0]), events[1..])
  }

  ghost predicate HasProgress(s: SplitState) {
    s.opening.Some? ==> s.opening.value.done <= 3
  }

  lemma {:induction false} NilFollows(s: SplitState, events: seq<SplitEvent>, t: SplitState)
    requires Stored(s) && Field(s.client, s.opening.value.branch) == None
    requires IsSplitRun(s, events, t) && t.opening.None?
    ensures !NoNilReturned(s, events)
    decreases |events|
  {
    var next := SplitStep(s, events[0]);
    if next.opening.Some? {
      StoredStays(s, events[0]);
      NilFollows(next, events[1..], t);
    }
  }

  lemma StoredStays(s: SplitState, e: SplitEvent)
    requires Stored(s) && SplitEnabled(s, e) && SplitStep(s, e).opening.Some?
    ensures var next := SplitStep(s, e);
            && Stored(next) && next.opening.value.branch == s.opening.value.branch
            && Field(next.client, s.opening.value.branch) == if e.CallBack? then None else Field(s.client, s.opening.value.branch)
  {
    var stages := Stages(s.opening.value.branch);
    assert stages[..1] == [stages[0]] && stages[..2] == [stages[0], stages[1]] && stages[..3] == stages;
  }

  lemma StoringStores(s: SplitState, e: SplitEvent)
    requires HasProgress(s) && !Stored(s) && SplitEnabled(s, e)
    ensures var next := SplitStep(s, e);
            HasProgress(next) && (Stored(next) ==> Field(next.client, next.opening.value.branch).Some?)
            && !(s.opening.Some? && next.opening.None?)
  {
    if s.opening.Some? {
      var stages := Stages(s.opening.value.branch);
      assert stages[..1] == [stages[0]] && stages[..2] == [stages[0], stages[1]] && stages[..3] == stages;
    }
  }

  lemma {:induction false} NilExactlyFrom(s: SplitState, events: seq<SplitEvent>, t: SplitState)
    requires HasProgress(s) && (Stored(s) ==> Field(s.client, s.opening.value.branch).Some?)
    requires IsSplitRun(s, events, t) && t.opening.None?
    ensures NoNilReturned(s, events) <==> NoCallbackWhenStored(s, events)
    decreases |events|
  {
    hide Perform, StreamDisconnected, Stored, Field, Stages;
    if events != [] {
      var next := SplitStep(s, events[0]);
      if !Stored(s) {
        StoringStores(s, events[0]);
        NilExactlyFrom(next, events[1..], t);
      } else if next.opening.None? {
        ReturnsField(s, events[0]);
        NilExactlyFrom(next, events[1..], t);
      } else {
        StoredStays(s, events[0]);
        if events[0].CallBack? {
          NilFollows(next, events[1..], t);
        } else {
          NilExactlyFrom(next, events[1..], t);
        }
      }
    }
  }

  lemma ReturnsField(s: SplitState, e: SplitEvent)
    requires Stored(s) && SplitEnabled(s, e) && SplitStep(s, e).opening.None?
    ensures e == Advance && SplitStep(s, e).returned == Field(s.client, s.opening.value.branch)
    ensures !Stored(SplitStep(s, e)) && HasProgress(SplitStep(s, e))
  {
  }

  /** Over every run, some call returns a nil stream together with a nil error exactly if some stream
      calls back after it was stored and before the call that opened it returned. */
  lemma NilReturnedExactly(events: seq<SplitEvent>, t: SplitState)
    requires IsSplitRun(SPLIT_NEW, events, t) && t.opening.None?
    ensures NoNilReturned(SPLIT_NEW, events) <==> NoCallbackWhenStored(SPLIT_NEW, events)
  {
    NilExactlyFrom(SPLIT_NEW, events, t);
  }

  /** Such a call: the first stream is lost when the v1 branch has performed all its stages. */
  lemma NilIsReturned()
    ensures exists t :: IsSplitRun(SPLIT_NEW, OpeningWithCallback(V1, 3, 0), t) && t.opening.None? && t.returned.None?
  {
    hide IsSplitRun;
    var t := SplitState(StreamDisconnected(Partial(NEW, V1, 3), 0), None, None);
    assert Completed(t.client, V1, 0, 3) == t.client;
    CallbackOutcome(NEW, None, V1, 3, t);
  }
}
