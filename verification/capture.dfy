/** The request interceptor: while the search page loads, every outgoing
    request is inspected and the last one aimed at the search API is kept. */
module Capture {
  import opened Base

  /** What the interceptor snapshots of a request: URL, method and headers. */
  datatype Request = Request(url: string, httpMethod: string, headers: map<string, string>)

  /** The substring that identifies a call to the search API. */
  const ApiMarker: string := "v3?"

  predicate IsApiRequest(r: Request) {
    Contains(r.url, ApiMarker)
  }

  /** The request handler run over the remaining events, starting from the
      value `captured` holds so far: each event passing `matches` overwrites
      it. */
  function CaptureFrom<T>(captured: Option<T>, events: seq<T>, matches: T -> bool): Option<T>
    decreases |events|
  {
    if |events| == 0 then captured
    else CaptureFrom(if matches(events[0]) then Some(events[0]) else captured, events[1..], matches)
  }

  /** The captured request of one page load; the variable starts out null. */
  function CaptureRequest(events: seq<Request>): Option<Request> {
    CaptureFrom(None, events, IsApiRequest)
  }

  /** Reference definition: the index of the last matching event, scanning from the end. */
  function LastIndex<T>(events: seq<T>, matches: T -> bool): (r: Option<nat>)
    ensures r.Some? ==> r.value < |events| && matches(events[r.value])
    ensures r.Some? ==> forall j :: r.value < j < |events| ==> !matches(events[j])
    ensures r.None? ==> forall j :: 0 <= j < |events| ==> !matches(events[j])
    decreases |events|
  {
    if |events| == 0 then None
    else if matches(events[|events| - 1]) then Some(|events| - 1)
    else LastIndex(events[..|events| - 1], matches)
  }

  /** No event matches. */
  predicate NoMatch<T>(events: seq<T>, matches: T -> bool) {
    forall j :: 0 <= j < |events| ==> !matches(events[j])
  }

  /** Event `i` matches and none after it does. */
  predicate IsLast<T>(events: seq<T>, i: nat, matches: T -> bool) {
    i < |events| && matches(events[i]) && forall j :: i < j < |events| ==> !matches(events[j])
  }

  /** Folding from any starting value yields the last match, or the starting
      value when nothing matches. */
  lemma {:induction false} CaptureFromIsLastMatch<T>(captured: Option<T>, events: seq<T>, matches: T -> bool)
    ensures NoMatch(events, matches) ==> CaptureFrom(captured, events, matches) == captured
    ensures forall i: nat :: IsLast(events, i, matches) ==> CaptureFrom(captured, events, matches) == Some(events[i])
    decreases |events|
  {
    if |events| > 0 {
      var tail := events[1..];
      var next := if matches(events[0]) then Some(events[0]) else captured;
      CaptureFromIsLastMatch(next, tail, matches);
      if NoMatch(events, matches) {
        forall j | 0 <= j < |tail| ensures !matches(tail[j]) {
          assert tail[j] == events[j + 1];
        }
      }
      forall i: nat | IsLast(events, i, matches)
        ensures CaptureFrom(captured, events, matches) == Some(events[i])
      {
        if i == 0 {
          forall j | 0 <= j < |tail| ensures !matches(tail[j]) {
            assert tail[j] == events[j + 1];
          }
        } else {
          forall j | i - 1 < j < |tail| ensures !matches(tail[j]) {
            assert tail[j] == events[j + 1];
          }
          assert tail[i - 1] == events[i];
          assert IsLast(tail, i - 1, matches);
        }
      }
    }
  }

  /** The interceptor keeps the last request whose URL contains the marker,
      and captures nothing exactly when no URL contains it. */
  lemma CaptureIsLastMatch(events: seq<Request>)
    ensures CaptureRequest(events).None? <==>
              forall j :: 0 <= j < |events| ==> !IsApiRequest(events[j])
    ensures CaptureRequest(events).Some? ==>
              exists i :: 0 <= i < |events| && events[i] == CaptureRequest(events).value
                          && IsApiRequest(events[i])
                          && forall j :: i < j < |events| ==> !IsApiRequest(events[j])
  {
    CaptureFromIsLastMatch(None, events, IsApiRequest);
    var last := LastIndex(events, IsApiRequest);
    if last.Some? {
      assert IsLast(events, last.value, IsApiRequest);
      assert events[last.value] == CaptureRequest(events).value;
    }
  }
}
