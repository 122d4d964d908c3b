/** The sandboxed worker's message loop: one reply frame for every event. */
module Worker {
  import opened Wrappers
  import opened Messages

  /** A response as encoded on the wire. */
  type WireResponse(==, !new)

  datatype Envelope =
    | Hello(token: string)
    | Response(wire: WireResponse)
    | Failure(detail: string)
    | NoOp

  /**
   * The code a worker runs: how it decodes an event, how a session answers one (nothing when the
   * event addressed nothing), and how it encodes a response. All of it is arbitrary here.
   */
  datatype WorkerCode<!S> = WorkerCode(
    initial: S,
    rehydrateEvent: UiEvent -> Result<UiEvent, string>,
    applyEvent: (S, UiEvent) -> (S, Option<Result<WorkerResponse, string>>),
    toWire: WorkerResponse -> WireResponse)

  /** One turn of the loop: the session afterwards and the frame sent. */
  function Answer<S>(code: WorkerCode<S>, session: S, event: UiEvent): (S, Envelope) {
    match code.rehydrateEvent(event)
    case Err(e) => (session, Failure(e))
    case Ok(decoded) =>
      var (next, outcome) := code.applyEvent(session, decoded);
      (next,
       match outcome
       case None => NoOp
       case Some(Ok(response)) => Response(code.toWire(response))
       case Some(Err(e)) => Failure(e))
  }

  /** The session after a list of events. */
  function SessionAfter<S>(code: WorkerCode<S>, events: seq<UiEvent>): S {
    if events == [] then code.initial
    else Answer(code, SessionAfter(code, events[..|events| - 1]), events[|events| - 1]).0
  }

  /** The frame that answers event number k. */
  function ReplyTo<S>(code: WorkerCode<S>, events: seq<UiEvent>, k: nat): Envelope
    requires k < |events|
  {
    Answer(code, SessionAfter(code, events[..k]), events[k]).1
  }

  /**
   * One turn of the loop, said without saying how it is computed: an event that does not decode
   * leaves the session alone and is answered with the reason; one that does moves the session on, and
   * is answered with what the session says, be it nothing, a response or an error.
   */
  ghost predicate Turn<S(!new)>(code: WorkerCode<S>, session: S, event: UiEvent, next: S, frame: Envelope) {
    match code.rehydrateEvent(event)
    case Err(reason) => next == session && frame == Failure(reason)
    case Ok(decoded) =>
      exists outcome ::
        && code.applyEvent(session, decoded) == (next, outcome)
        && (outcome == None <==> frame == NoOp)
        && (forall response :: outcome == Some(Ok(response)) ==> frame == Response(code.toWire(response)))
        && (forall error :: outcome == Some(Err(error)) ==> frame == Failure(error))
  }

  /** The sessions and frames of a worker are a chain of turns from the initial session. */
  lemma TurnsAreChained<S(!new)>(code: WorkerCode<S>, events: seq<UiEvent>, k: nat)
    requires k < |events|
    ensures SessionAfter(code, []) == code.initial
    ensures Turn(code, SessionAfter(code, events[..k]), events[k], SessionAfter(code, events[..k + 1]),
      ReplyTo(code, events, k))
  {
    assert events[..k + 1][..k] == events[..k];
    var session := SessionAfter(code, events[..k]);
    match code.rehydrateEvent(events[k])
    case Err(_) =>
    case Ok(decoded) =>
      var (next, outcome) := code.applyEvent(session, decoded);
      assert code.applyEvent(session, decoded) == (next, outcome);
  }

  /** How many events a worker takes before it stops: up to the first `CloseTab`. */
  function Served(events: seq<UiEvent>): (n: nat)
    ensures n <= |events|
    ensures n < |events| <==> CloseTab in events
    ensures CloseTab !in events[..n] && (n < |events| ==> events[n] == CloseTab)
  {
    if events == [] || events[0].CloseTab? then 0 else
    assert events == [events[0]] + events[1..];
    1 + Served(events[1..])
  }

  const EXIT_CLEAN := 0
  const EXIT_TRANSPORT := 4

  /** How a channel stops working: the other end is gone, or the transport fails. */
  datatype Break = EndOfFile | TransportFailure

  /** The other end closing the channel is how a worker is asked to stop. */
  function ExitCode(end: Break): int {
    if end.EndOfFile? then EXIT_CLEAN else EXIT_TRANSPORT
  }

  /** How many frames a worker gets sent: one per event it takes, up to the first that cannot be sent. */
  function Sent(events: seq<UiEvent>, unsendable: Option<(nat, Break)>): nat {
    if unsendable.Some? && unsendable.value.0 < Served(events) then unsendable.value.0 else Served(events)
  }

  /**
   * The loop, on the events its channel holds before it ends, and with the number of the frame whose
   * sending fails, if any does: one frame per event, in order, and none for `CloseTab`.
   */
  method Run<S>(code: WorkerCode<S>, events: seq<UiEvent>, end: Break, unsendable: Option<(nat, Break)>)
    returns (frames: seq<Envelope>, exitCode: int)
    ensures |frames| == Sent(events, unsendable)
    ensures |frames| <= Served(events) && (unsendable.Some? ==> |frames| <= unsendable.value.0)
    ensures |frames| < Served(events) ==> unsendable.Some? && |frames| == unsendable.value.0
    ensures forall k | 0 <= k < |frames| :: frames[k] == ReplyTo(code, events, k)
    ensures forall frame <- frames :: !frame.Hello?
    ensures |frames| < Served(events) ==> exitCode == if unsendable.value.1.EndOfFile? then 0 else 4
    ensures |frames| == Served(events) ==> exitCode == if CloseTab in events || end.EndOfFile? then 0 else 4
  {
    frames := [];
    var session := code.initial;
    var next := 0;
    while next < |events|
      invariant next == |frames| <= Sent(events, unsendable)
      invariant session == SessionAfter(code, events[..next])
      invariant forall k | 0 <= k < next :: frames[k] == ReplyTo(code, events, k)
      invariant forall frame <- frames :: !frame.Hello?
    {
      if events[next].CloseTab? {
        return frames, EXIT_CLEAN;
      }
      assert events[..next + 1][..next] == events[..next];
      var (after, frame) := Answer(code, session, events[next]);
      session := after;
      if unsendable.Some? && unsendable.value.0 == next {
        return frames, ExitCode(unsendable.value.1);
      }
      frames := frames + [frame];
      next := next + 1;
    }
    exitCode := ExitCode(end);
  }
}
