/** What the idempotency middleware of httpx/middleware/idempotency.go keeps of a response:
    the capture of status and body, and the headers it stores. Bytes and characters are
    `char`. */
module Responses {
  import opened Common

  const STATUS_OK := 200

  // ---------------------------------------------------------------- response capture

  /** A handler's calls on its response writer: WriteHeader, Write, and changes of its
      header map, None being a deletion. What the map held before counts as set first. */
  datatype WriteCall =
    | Header(status: int)
    | Body(bytes: string)
    | SetHeader(key: string, values: Option<seq<string>>)

  datatype Capture = Capture(status: int, body: string, truncated: bool)

  function CaptureStep(max: nat, c: Capture, w: WriteCall): Capture {
    match w
    case Header(status) =>
      if c.status == 0 && status >= STATUS_OK then c.(status := status) else c
    case Body(bytes) =>
      var c1 := if c.status == 0 then c.(status := STATUS_OK) else c;
      if c1.truncated then c1
      else if |bytes| <= max - |c1.body| then c1.(body := c1.body + bytes)
      else c1.(truncated := true)
    case SetHeader(_, _) => c
  }

  /** captureWriter; what it forwards to the client's writer is its own calls, unchanged. */
  class CaptureWriter {
    const max: nat
    var status: int
    var body: string
    var truncated: bool
    var forwarded: seq<WriteCall>

    ghost function View(): Capture
      reads this
    {
      Capture(status, body, truncated)
    }

    /** The writer holds the capture of everything it was asked to write. */
    ghost predicate Valid()
      reads this
    {
      View() == Captured(max, forwarded)
    }

    constructor (max: nat)
      ensures Valid() && this.max == max && forwarded == []
    {
      this.max, status, body, truncated, forwarded := max, 0, "", false, [];
    }

    method WriteHeader(code: int)
      requires Valid()
      modifies this
      ensures Valid() && View() == CaptureStep(max, old(View()), Header(code))
      ensures forwarded == old(forwarded) + [Header(code)]
    {
      if status == 0 && code >= STATUS_OK {
        status := code;
      }
      CapturedSnoc(max, forwarded, Header(code));
      forwarded := forwarded + [Header(code)];
    }

    method Write(bytes: string)
      requires Valid()
      modifies this
      ensures Valid() && View() == CaptureStep(max, old(View()), Body(bytes))
      ensures forwarded == old(forwarded) + [Body(bytes)]
    {
      if status == 0 {
        status := STATUS_OK;
      }
      if !truncated {
        var room := max - |body|;
        if |bytes| <= room {
          body := body + bytes;
        } else {
          truncated := true;
        }
      }
      CapturedSnoc(max, forwarded, Body(bytes));
      forwarded := forwarded + [Body(bytes)];
    }

    /** The header map is the wrapped writer's own. */
    method ChangeHeader(key: string, values: Option<seq<string>>)
      requires Valid()
      modifies this
      ensures Valid() && View() == old(View())
      ensures forwarded == old(forwarded) + [SetHeader(key, values)]
    {
      CapturedSnoc(max, forwarded, SetHeader(key, values));
      forwarded := forwarded + [SetHeader(key, values)];
    }
  }

  // ---------------------------------------------------------------- what was captured

  function Captured(max: nat, writes: seq<WriteCall>): Capture {
    if writes == [] then Capture(0, "", false)
    else CaptureStep(max, Captured(max, writes[..|writes| - 1]), writes[|writes| - 1])
  }

  lemma CapturedSnoc(max: nat, writes: seq<WriteCall>, w: WriteCall)
    ensures Captured(max, writes + [w]) == CaptureStep(max, Captured(max, writes), w)
  {
    assert (writes + [w])[..|writes|] == writes;
  }

  // What the client saw, said without a capture.

  function WholeBody(writes: seq<WriteCall>): string {
    if writes == [] then ""
    else
      var w := writes[|writes| - 1];
      WholeBody(writes[..|writes| - 1]) + (if w.Body? then w.bytes else "")
  }

  /** A write that fixes the status: a final header, or any body. */
  predicate Decides(w: WriteCall) { w.Body? || (w.Header? && w.status >= STATUS_OK) }

  /** The first final status, or 0 while none was sent. */
  function FirstStatus(writes: seq<WriteCall>): int {
    if writes == [] then 0
    else
      var before := FirstStatus(writes[..|writes| - 1]);
      var w := writes[|writes| - 1];
      if before != 0 || !Decides(w) then before
      else if w.Body? then STATUS_OK
      else w.status
  }

  /** The status the client ended with. */
  function FinalStatus(writes: seq<WriteCall>): int {
    if FirstStatus(writes) == 0 then STATUS_OK else FirstStatus(writes)
  }

  /** FirstStatus is the status of the earliest deciding write. */
  lemma {:induction false} FirstStatusIsFirst(writes: seq<WriteCall>, i: nat)
    requires i < |writes| && Decides(writes[i]) && forall j :: 0 <= j < i ==> !Decides(writes[j])
    ensures FirstStatus(writes) == if writes[i].Body? then STATUS_OK else writes[i].status
  {
    var rest := writes[..|writes| - 1];
    if i < |rest| {
      FirstStatusIsFirst(rest, i);
    } else {
      NothingDecided(rest);
    }
  }

  lemma {:induction false} NothingDecided(writes: seq<WriteCall>)
    requires forall j :: 0 <= j < |writes| ==> !Decides(writes[j])
    ensures FirstStatus(writes) == 0
  {
    if writes == [] {
    } else {
      NothingDecided(writes[..|writes| - 1]);
    }
  }

  /** For every sequence of writes: truncation is flagged exactly when the whole body
      exceeds the cap, and otherwise the capture is the whole body; the captured
      status is the first final one in any case. */
  lemma {:induction false} CaptureIsExact(max: nat, writes: seq<WriteCall>)
    ensures var c := Captured(max, writes);
      && (c.truncated <==> |WholeBody(writes)| > max)
      && (!c.truncated ==> c.body == WholeBody(writes))
      && |c.body| <= max
      && c.status == FirstStatus(writes)
  {
    if writes == [] {
    } else {
      CaptureIsExact(max, writes[..|writes| - 1]);
    }
  }

  // ---------------------------------------------------------------- headers

  type Headers = map<string, seq<string>>

  /** perResponseHeaders, in canonical form as the keys of a header map are. */
  const PER_RESPONSE: set<string> := {
    "Connection", "Keep-Alive", "Proxy-Authenticate", "Proxy-Authorization", "Te", "Trailer",
    "Transfer-Encoding", "Upgrade", "Date", "Content-Length" }

  /** storableHeader. */
  function Storable(h: Headers): Headers { map k | k in h && k !in PER_RESPONSE :: h[k] }

  /** The loop of storableHeader: the map's entries in any order. */
  method StorableHeader(h: Headers) returns (stored: Headers)
    ensures stored == Storable(h)
  {
    stored := map[];
    var rest := h.Keys;
    while rest != {}
      invariant rest <= h.Keys
      invariant stored == map k | k in h && k !in rest && k !in PER_RESPONSE :: h[k]
      decreases rest
    {
      var k := AnyOf(rest);
      rest := rest - {k};
      if k in PER_RESPONSE {
        continue;
      }
      stored := stored[k := h[k]];
    }
  }

  function Changed(h: Headers, key: string, values: Option<seq<string>>): Headers {
    match values case None => h - {key} case Some(v) => h[key := v]
  }

  /** The header map as the handler left it. */
  function HeaderOf(writes: seq<WriteCall>): Headers {
    if writes == [] then map[]
    else
      var h, w := HeaderOf(writes[..|writes| - 1]), writes[|writes| - 1];
      if w.SetHeader? then Changed(h, w.key, w.values) else h
  }

  /** The header the client was sent: the map as the deciding write found it, or as it was
      left if there was none. */
  function SentHeader(writes: seq<WriteCall>): Headers {
    if writes == [] then map[]
    else if FirstStatus(writes[..|writes| - 1]) != 0 then SentHeader(writes[..|writes| - 1])
    else HeaderOf(writes)
  }

  /** The last change of a key made too late to be sent. */
  function LateChange(writes: seq<WriteCall>, key: string): Option<Option<seq<string>>> {
    if writes == [] then None
    else
      var before, w := writes[..|writes| - 1], writes[|writes| - 1];
      if w.SetHeader? && w.key == key && FirstStatus(before) != 0 then Some(w.values) else LateChange(before, key)
  }

  function ValueIn(h: Headers, key: string): Option<seq<string>> { if key in h then Some(h[key]) else None }

  /** What was sent under the key was not changed later, or last set back. */
  predicate Restored(writes: seq<WriteCall>, key: string) {
    LateChange(writes, key).Some? ==> LateChange(writes, key).value == ValueIn(SentHeader(writes), key)
  }

  lemma {:induction false} NothingIsLate(writes: seq<WriteCall>, key: string)
    requires FirstStatus(writes) == 0
    ensures LateChange(writes, key) == None && SentHeader(writes) == HeaderOf(writes)
  {
    if writes == [] {
    } else {
      NothingIsLate(writes[..|writes| - 1], key);
    }
  }

  lemma {:induction false} LeftIsSentAndLate(writes: seq<WriteCall>, key: string)
    ensures ValueIn(HeaderOf(writes), key) ==
            match LateChange(writes, key) case None => ValueIn(SentHeader(writes), key) case Some(values) => values
  {
    if writes == [] {
    } else {
      var before := writes[..|writes| - 1];
      LeftIsSentAndLate(before, key);
      if FirstStatus(before) == 0 {
        NothingIsLate(before, key);
      }
    }
  }

  /** The stored header is the one the client was sent, per-response headers aside, if and
      only if every storable key changed after the deciding write was last set back to what
      had been sent. A handler that sets a header too late has it replayed, unsent. */
  lemma StoredIsSentExactlyWithoutLateChanges(writes: seq<WriteCall>)
    ensures Storable(HeaderOf(writes)) == Storable(SentHeader(writes)) <==>
            forall key :: key !in PER_RESPONSE ==> Restored(writes, key)
  {
    var left, sent := HeaderOf(writes), SentHeader(writes);
    forall key ensures ValueIn(Storable(left), key) == if key in PER_RESPONSE then None else ValueIn(left, key) {}
    forall key ensures ValueIn(Storable(sent), key) == if key in PER_RESPONSE then None else ValueIn(sent, key) {}
    forall key ensures key !in PER_RESPONSE ==>
        (Restored(writes, key) <==> ValueIn(left, key) == ValueIn(sent, key)) {
      LeftIsSentAndLate(writes, key);
    }
    SameByValue(Storable(left), Storable(sent));
  }

  lemma SameByValue(g: Headers, h: Headers)
    ensures g == h <==> forall key :: ValueIn(g, key) == ValueIn(h, key)
  {
    if forall key :: ValueIn(g, key) == ValueIn(h, key) {
      forall key ensures key in g <==> key in h {
        assert ValueIn(g, key) == ValueIn(h, key);
      }
      forall key | key in g ensures g[key] == h[key] {
        assert ValueIn(g, key) == ValueIn(h, key);
      }
    }
  }
}
