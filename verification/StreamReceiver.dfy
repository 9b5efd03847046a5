/**
 * The bounded receiver: a goroutine moves incoming messages into a channel of capacity one,
 * and a caller, serialised by the client's mutex, sends a request and reads one answer.
 */
module StreamReceiver {
  import opened Collections

  /** What the transport hands to the goroutine. */
  datatype Item<T> = Message(msg: T) | Failure

  datatype Channel<T> = Channel(buffer: Option<Item<T>>, closed: bool)

  /** One iteration of the goroutine: a full buffer or an error ends it, closing the channel. */
  function Deliver<T>(c: Channel<T>, item: Item<T>): Channel<T> {
    if c.buffer.Some? then c.(closed := true)
    else Channel(Some(item), item.Failure?)
  }

  class BufferedReceiver<T(0)> {
    var channel: Channel<T>
    /** The goroutine has not returned. */
    var running: bool
    /** How often the disconnect callback was invoked. */
    var callbacks: nat

    ghost predicate Valid()
      reads this
    {
      (running <==> !channel.closed) && callbacks == if running then 0 else 1
    }

    constructor ()
      ensures Valid() && running && channel == Channel(None, false)
    {
      channel := Channel(None, false);
      running, callbacks := true, 0;
    }

    /** The goroutine puts the item into the channel if there is room; otherwise it gives up and drops it. */
    method OnItem(item: Item<T>) returns (dropped: bool)
      requires Valid() && running
      modifies this
      ensures Valid() && channel == Deliver(old(channel), item)
      ensures dropped <==> old(channel).buffer.Some?
      ensures running <==> item.Message? && !dropped
    {
      dropped := channel.buffer.Some?;
      if dropped {
        channel := channel.(closed := true);
        running, callbacks := false, callbacks + 1;
        return;
      }
      channel := channel.(buffer := Some(item));
      if item.Failure? {
        channel := channel.(closed := true);
        running, callbacks := false, callbacks + 1;
      }
    }

    /** The caller blocks until an item is buffered or the channel is closed. */
    method Recv() returns (res: Option<T>)
      requires Valid() && (channel.buffer.Some? || channel.closed)
      modifies this`channel
      ensures Valid() && channel == old(channel).(buffer := None)
      ensures res == Taken(old(channel))
    {
      if channel.buffer.Some? && channel.buffer.value.Message? {
        res := Some(channel.buffer.value.msg);
      } else {
        res := None;
      }
      channel := channel.(buffer := None);
    }
  }

  /** What a read returns: the buffered message, or nothing for an error or a closed channel. */
  function Taken<T>(c: Channel<T>): Option<T> {
    if c.buffer.Some? && c.buffer.value.Message? then Some(c.buffer.value.msg) else None
  }

  // ---------------------------------------------------------------- requests and responses

  datatype Event<T> = Request | Incoming(item: Item<T>) | Read

  /** `responses` and `results` are histories: what the peer answered, what the caller was given. */
  datatype State<T> = State(channel: Channel<T>, awaiting: bool, requests: nat, responses: seq<T>, results: seq<Option<T>>)

  ghost predicate Enabled<T>(s: State<T>, e: Event<T>) {
    match e
    case Request => !s.awaiting
    case Incoming(_) => !s.channel.closed
    case Read => s.awaiting && (s.channel.buffer.Some? || s.channel.closed)
  }

  /** The peer answers at most once per request. */
  ghost predicate Polite<T>(s: State<T>, e: Event<T>) {
    e.Incoming? && e.item.Message? ==> |s.responses| < s.requests
  }

  ghost function Step<T>(s: State<T>, e: Event<T>): State<T>
    requires Enabled(s, e)
  {
    match e
    case Request => s.(awaiting := true, requests := s.requests + 1)
    case Incoming(item) =>
      s.(channel := Deliver(s.channel, item), responses := if item.Message? then s.responses + [item.msg] else s.responses)
    case Read =>
      s.(channel := s.channel.(buffer := None), awaiting := false, results := s.results + [Taken(s.channel)])
  }

  ghost function Initial<T>(): State<T> {
    State(Channel(None, false), false, 0, [], [])
  }

  ghost predicate IsPoliteRun<T(!new)>(s: State<T>, events: seq<Event<T>>, t: State<T>)
    decreases |events|
  {
    if events == [] then s == t
    else Enabled(s, events[0]) && Polite(s, events[0]) && IsPoliteRun(Step(s, events[0]), events[1..], t)
  }

  ghost function Unread<T>(c: Channel<T>): nat {
    if c.buffer.Some? && c.buffer.value.Message? then 1 else 0
  }

  ghost predicate Paired<T(!new)>(s: State<T>) {
    var read := |s.responses| - Unread(s.channel);
    && s.requests == |s.results| + (if s.awaiting then 1 else 0)
    && 0 <= read <= |s.results|
    && (forall i :: 0 <= i < read ==> s.results[i] == Some(s.responses[i]))
    && (forall i :: read <= i < |s.results| ==> s.results[i] == None)
    && (Unread(s.channel) == 1 ==> s.channel.buffer.value.msg == s.responses[read] && s.awaiting && |s.results| == read)
    && (!s.channel.closed ==> |s.results| == read)
    && (s.channel.buffer == Some(Failure) ==> s.channel.closed)
  }

  lemma StepKeepsPaired<T(!new)>(s: State<T>, e: Event<T>)
    requires Paired(s) && Enabled(s, e) && Polite(s, e)
    ensures Paired(Step(s, e))
    ensures e.Incoming? && e.item.Message? ==> s.channel.buffer.None?
  {
  }

  lemma {:induction false} RunKeepsPaired<T(!new)>(s: State<T>, events: seq<Event<T>>, t: State<T>)
    requires Paired(s) && IsPoliteRun(s, events, t)
    ensures Paired(t)
    decreases |events|
  {
    if events != [] {
      StepKeepsPaired(s, events[0]);
      RunKeepsPaired(Step(s, events[0]), events[1..], t);
    }
  }

  /** With a peer that answers at most once per request, no response is dropped, the i-th request
      gets the i-th response, and what is not yet read is exactly the one buffered response. */
  lemma RequestsGetTheirResponses<T(!new)>(events: seq<Event<T>>, t: State<T>)
    requires IsPoliteRun(Initial(), events, t)
    ensures forall i :: 0 <= i < |t.results| && i < |t.responses| - Unread(t.channel) ==> t.results[i] == Some(t.responses[i])
    ensures forall i :: 0 <= i < |t.results| && t.results[i].Some? ==> i < |t.responses| && t.results[i].value == t.responses[i]
    ensures |t.responses| <= |t.results| + Unread(t.channel)
    ensures forall item: Item<T> :: Enabled(t, Incoming(item)) && Polite(t, Incoming(item)) && item.Message? ==> t.channel.buffer.None?
  {
    RunKeepsPaired(Initial(), events, t);
  }

  /** A terminal error arriving while a response is unread does not cost the response. */
  lemma ErrorKeepsUnreadResponse<T(!new)>(events: seq<Event<T>>, t: State<T>)
    requires IsPoliteRun(Initial(), events, t) && Unread(t.channel) == 1 && !t.channel.closed
    ensures var u := Step(t, Incoming(Failure));
            Enabled(u, Read) && |t.results| < |t.responses| && Step(u, Read).results == t.results + [Some(t.responses[|t.results|])]
            && Step(u, Read).channel == Channel(None, true)
  {
    RunKeepsPaired(Initial(), events, t);
  }

  // ---------------------------------------------------------------- peers that speak out of turn

  ghost predicate IsRun<T(!new)>(s: State<T>, events: seq<Event<T>>, t: State<T>)
    decreases |events|
  {
    if events == [] then s == t
    else Enabled(s, events[0]) && IsRun(Step(s, events[0]), events[1..], t)
  }

  /** The first `read` requests were given the first `read` responses, later ones nothing, and at most
      one response, the last, was dropped. */
  ghost predicate InArrivalOrder<T(!new)>(s: State<T>, read: nat) {
    && read <= |s.results| && read + Unread(s.channel) <= |s.responses|
    && (forall i :: 0 <= i < read ==> s.results[i] == Some(s.responses[i]))
    && (forall i :: read <= i < |s.results| ==> s.results[i] == None)
    && (Unread(s.channel) == 1 ==> s.channel.buffer.value.msg == s.responses[read] && |s.results| == read)
    && |s.responses| <= read + Unread(s.channel) + (if s.channel.closed then 1 else 0)
    && (!s.channel.closed ==> |s.results| == read)
    && (s.channel.buffer == Some(Failure) ==> s.channel.closed)
  }

  lemma StepKeepsOrder<T(!new)>(s: State<T>, e: Event<T>, read: nat)
    requires InArrivalOrder(s, read) && Enabled(s, e)
    ensures InArrivalOrder(Step(s, e), if e.Read? then read + Unread(s.channel) else read)
  {
  }

  lemma {:induction false} RunKeepsOrder<T(!new)>(s: State<T>, events: seq<Event<T>>, t: State<T>, read: nat) returns (end: nat)
    requires InArrivalOrder(s, read) && IsRun(s, events, t)
    ensures InArrivalOrder(t, end)
    decreases |events|
  {
    hide InArrivalOrder;
    if events == [] {
      end := read;
    } else {
      StepKeepsOrder(s, events[0], read);
      end := RunKeepsOrder(Step(s, events[0]), events[1..], t, if events[0].Read? then read + Unread(s.channel) else read);
    }
  }

  /** Whatever the peer does, results are the responses in the order of their arrival, and a
      response can only be dropped as the last one. */
  lemma ResultsFollowArrivals<T(!new)>(events: seq<Event<T>>, t: State<T>) returns (read: nat)
    requires IsRun(Initial(), events, t)
    ensures InArrivalOrder(t, read)
  {
    read := RunKeepsOrder(Initial(), events, t, 0);
  }

  /** A message says which request it answers, if any. */
  datatype Reply = Answer(request: nat) | Unsolicited

  ghost function Answers(replies: seq<Reply>): nat {
    if replies == [] then 0 else Answers(replies[..|replies| - 1]) + if replies[|replies| - 1].Answer? then 1 else 0
  }

  /** The peer answers the requests one by one, in order, possibly with other messages in between. */
  ghost predicate AnswersInOrder(replies: seq<Reply>) {
    forall i :: 0 <= i < |replies| && replies[i].Answer? ==> replies[i].request == Answers(replies[..i])
  }

  lemma {:induction false} CountAnswers(replies: seq<Reply>)
    ensures Answers(replies) <= |replies|
    ensures Answers(replies) == |replies| <==> forall j :: 0 <= j < |replies| ==> replies[j].Answer?
  {
    if replies != [] {
      CountAnswers(replies[..|replies| - 1]);
    }
  }

  /** Over every run: a request that is given a message is given the answer to itself exactly if no
      unsolicited message arrived before that point; a single one shifts all later answers. */
  lemma UnsolicitedResponseMispairs(events: seq<Event<Reply>>, t: State<Reply>, i: nat)
    requires IsRun(Initial(), events, t) && AnswersInOrder(t.responses)
    requires i < |t.results| && t.results[i].Some?
    ensures t.results[i].value == Answer(i) <==> forall j :: 0 <= j <= i && j < |t.responses| ==> t.responses[j].Answer?
  {
    var read := ResultsFollowArrivals(events, t);
    CountAnswers(t.responses[..i]);
  }

  /** The shortest run in which that happens. */
  lemma UnsolicitedMessageIsTaken()
    ensures exists t :: IsRun(Initial(), [Incoming(Message(Unsolicited)), Request, Read], t) && t.results == [Some(Unsolicited)]
  {
    var s1 := Step(Initial(), Incoming(Message(Unsolicited)));
    var s2 := Step(s1, Request);
    var t := Step(s2, Read);
    assert IsRun(t, [], t) && IsRun(s2, [Read], t) && IsRun(s1, [Request, Read], t);
  }
}
