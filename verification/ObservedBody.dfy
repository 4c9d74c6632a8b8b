/** The response body that captures what passes through it and starts terminal accounting once. */
module ObservedBody {
  import opened Prelude

  type Byte = b: nat | b < 256
  type Bytes = seq<Byte>

  /** What polling the wrapped body answers. */
  datatype Inner = Data(chunk: Bytes) | Trailers | End | Error | NotReady

  /** What polling the observed body answers. */
  datatype Answer = Forwarded(frame: Inner) | EndOfStream | Pending

  /** What became of the accounting: it ran to its end, was handed to the deferred queue, or was refused as too
      large. */
  datatype Event = Finished(bytes: Bytes) | Deferred(bytes: Bytes) | Oversized

  /** `finishing` is the accounting future, identified by the bytes it was given; `events` is history. */
  datatype BodyState = BodyState(pending: bool, finishing: Option<Bytes>, captured: Bytes, overflowed: bool,
                                 events: seq<Event>)

  const NEW := BodyState(true, None, [], false, [])

  function Capture(s: BodyState, limit: nat, chunk: Bytes): BodyState {
    if s.overflowed then s
    else if |s.captured| + |chunk| <= (if s.pending then limit else 0) then s.(captured := s.captured + chunk)
    else s.(captured := [], overflowed := true)
  }

  /** `start_completion`: the future to run, and the state that remains. */
  function StartCompletion(s: BodyState): (Option<Bytes>, BodyState) {
    if !s.pending then (None, s)
    else if s.overflowed then (None, s.(pending := false, events := s.events + [Oversized]))
    else (Some(s.captured), s.(pending := false, captured := []))
  }

  /** One poll. `ready` says whether the accounting future, if polled now, completes. */
  function Poll(s: BodyState, limit: nat, inner: Inner, ready: bool): (BodyState, Answer) {
    if s.finishing.Some? then
      if ready then (s.(finishing := None, events := s.events + [Finished(s.finishing.value)]), EndOfStream)
          else (s, Pending)
    else
      match inner
      case Data(chunk) => (Capture(s, limit, chunk), Forwarded(inner))
      case Trailers => (s, Forwarded(inner))
      case Error => (s, Forwarded(inner))
      case NotReady => (s, Pending)
      case End =>
        var (started, rest) := StartCompletion(s);
        if started.None? then (rest, EndOfStream)
        else if ready then (rest.(events := rest.events + [Finished(started.value)]), EndOfStream)
        else (rest.(finishing := started), Pending)
  }

  /** Dropping the body: the accounting is polled once, and parked if it does not complete. */
  function Drop(s: BodyState, ready: bool): BodyState {
    var (started, rest) := if s.finishing.Some? then (s.finishing, s.(finishing := None)) else StartCompletion(s);
    if started.None? then rest
    else rest.(events := rest.events + [if ready then Finished(started.value) else Deferred(started.value)])
  }

  datatype PollInput = PollInput(inner: Inner, ready: bool)

  function PollAll(limit: nat, polls: seq<PollInput>): BodyState {
    if polls == [] then NEW
    else
      var last := polls[|polls| - 1];
      Poll(PollAll(limit, polls[..|polls| - 1]), limit, last.inner, last.ready).0
  }

  predicate Ended(polls: seq<PollInput>) {
    exists i | 0 <= i < |polls| :: polls[i].inner.End?
  }

  /** The data of every frame before the end of the stream. */
  function Passed(polls: seq<PollInput>): Bytes {
    if polls == [] then []
    else
      var before := polls[..|polls| - 1];
      var last := polls[|polls| - 1].inner;
      Passed(before) + if last.Data? && !Ended(before) then last.chunk else []
  }

  /** Before the end everything is captured until the limit is passed; after it the accounting was started once. */
  predicate Progress(s: BodyState, limit: nat, ended: bool, passed: Bytes) {
    if !ended then
      && s.pending && s.finishing.None? && s.events == []
      && (s.overflowed <==> |passed| > limit)
      && (!s.overflowed ==> s.captured == passed)
    else
      && !s.pending
      && (if |passed| > limit then s.finishing.None? && s.events == [Oversized]
          else (s.finishing == Some(passed) && s.events == []) || (s.finishing.None? && s.events == [Finished(passed)]))
  }

  lemma {:induction false} ProgressAll(limit: nat, polls: seq<PollInput>)
    ensures Progress(PollAll(limit, polls), limit, Ended(polls), Passed(polls))
  {
    if polls != [] {
      var n := |polls| - 1;
      ProgressAll(limit, polls[..n]);
      assert Passed(polls[..n]) + [] == Passed(polls[..n]);
      assert Ended(polls) <==> Ended(polls[..n]) || polls[n].inner.End? by {
        if Ended(polls[..n]) {
          var i :| 0 <= i < n && polls[..n][i].inner.End?;
          assert polls[i].inner.End?;
        }
        if Ended(polls) && !polls[n].inner.End? {
          var i :| 0 <= i < |polls| && polls[i].inner.End?;
          assert polls[..n][i].inner.End?;
        }
      }
    }
  }

  /** Whatever is polled before the drop, accounting happens exactly once, on exactly the bytes that passed, or is
      refused because they passed the limit. */
  lemma AccountedExactlyOnce(limit: nat, polls: seq<PollInput>, ready: bool)
    ensures var s := Drop(PollAll(limit, polls), ready);
            && !s.pending && s.finishing.None?
            && |s.events| == 1
            && (if |Passed(polls)| > limit then s.events[0] == Oversized
                else s.events[0] == Finished(Passed(polls)) || (s.events[0] == Deferred(Passed(polls)) && !ready))
            && (|Passed(polls)| <= limit && PollAll(limit, polls).events == [] ==>
                  s.events[0] == if ready then Finished(Passed(polls)) else Deferred(Passed(polls)))
  {
    ProgressAll(limit, polls);
  }

  /** What the caller is told, whatever was polled before: frames, trailers and errors pass through untouched; the
      end of the stream is passed on when the accounting it started, if any, is over; and once accounting has started
      only its progress is asked for. */
  lemma AnswersToTheCaller(limit: nat, polls: seq<PollInput>, inner: Inner, ready: bool)
    ensures var s := PollAll(limit, polls);
            var answer := Poll(s, limit, inner, ready).1;
            var accounting := Ended(polls) && s.events == [];
            if accounting then answer == if ready then EndOfStream else Pending
            else match inner
              case Data(chunk) => answer == Forwarded(Data(chunk))
              case Trailers => answer == Forwarded(Trailers)
              case Error => answer == Forwarded(Error)
              case NotReady => answer == Pending
              case End => answer == if !Ended(polls) && |Passed(polls)| <= limit && !ready then Pending else EndOfStream
    ensures var s := PollAll(limit, polls);
            var after := Poll(s, limit, inner, ready).0;
            var accounting := Ended(polls) && s.events == [];
            var starting := !Ended(polls) && inner.End?;
            after.events != s.events <==> (accounting && ready) || (starting && (ready || |Passed(polls)| > limit))
  {
    ProgressAll(limit, polls);
  }

  class ObservedBody {
    const maxResponseCapture: nat
    var completion: bool
    var finishing: Option<Bytes>
    var captured: Bytes
    var overflowed: bool
    ghost var events: seq<Event>

    ghost function Abstract(): BodyState
      reads this
    {
      BodyState(completion, finishing, captured, overflowed, events)
    }

    constructor (maxResponseCapture: nat)
      ensures Abstract() == NEW && this.maxResponseCapture == maxResponseCapture
    {
      this.maxResponseCapture := maxResponseCapture;
      completion, finishing, captured, overflowed, events := true, None, [], false, [];
    }

    method BeginCompletion() returns (future: Option<Bytes>)
      modifies this
      ensures (future, Abstract()) == StartCompletion(old(Abstract()))
    {
      if !completion {
        return None;
      }
      completion := false;
      if overflowed {
        events := events + [Oversized];
        return None;
      }
      future := Some(captured);
      captured := [];
    }

    method PollFrame(inner: Inner, ready: bool) returns (answer: Answer)
      modifies this
      ensures (Abstract(), answer) == Poll(old(Abstract()), maxResponseCapture, inner, ready)
    {
      if finishing.Some? {
        if ready {
          events := events + [Finished(finishing.value)];
          finishing := None;
          return EndOfStream;
        }
        return Pending;
      }
      match inner
      case Data(chunk) =>
        if !overflowed {
          var limit := if completion then maxResponseCapture else 0;
          if |captured| + |chunk| <= limit {
            captured := captured + chunk;
          } else {
            captured := [];
            overflowed := true;
          }
        }
        return Forwarded(inner);
      case End =>
        var started := BeginCompletion();
        if started.Some? {
          if ready {
            events := events + [Finished(started.value)];
            return EndOfStream;
          }
          finishing := started;
          return Pending;
        }
        return EndOfStream;
      case NotReady => return Pending;
      case Trailers => return Forwarded(inner);
      case Error => return Forwarded(inner);
    }

    /** `Drop`. The unfinished accounting, if any, is what the caller parks. */
    method Release(ready: bool) returns (unfinished: Option<Bytes>)
      modifies this
      ensures Abstract() == Drop(old(Abstract()), ready)
      ensures unfinished.Some? <==> |events| > |old(events)| && events[|events| - 1].Deferred?
      ensures unfinished.Some? ==> events == old(events) + [Deferred(unfinished.value)]
    {
      var future := finishing;
      if finishing.Some? {
        finishing := None;
      } else {
        future := BeginCompletion();
      }
      unfinished := None;
      if future.Some? {
        if ready {
          events := events + [Finished(future.value)];
        } else {
          events := events + [Deferred(future.value)];
          unfinished := future;
        }
      }
    }
  }
}
