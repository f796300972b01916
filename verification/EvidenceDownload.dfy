/**
 The resumable download of scripts/fetch_evidence.py. The folder holds the destination, its
 `.verified` marker and its `.partial` file; a server may refuse, ignore the range, send a
 short or overlong body, or drop the connection after any number of bytes.
 */
module EvidenceDownload {
  import opened Wrappers

  type Bytes = seq<bv8>

  /** One attempt as the server answers it: `ranged` means status 206. */
  datatype Response = Refused | Body(ranged: bool, bytes: Bytes, dropped: bool)

  datatype Result = Kept | Verified | TransportFailed | PartialMissing | WrongSize | WrongDigest

  datatype Files = Files(destination: Option<Bytes>, marker: Option<string>, partial: Option<Bytes>)

  /** The manifest entry, and the digest function its `sha256` field refers to. */
  datatype Entry = Entry(size: nat, sha256: string, digest: Bytes -> string)

  function SizeOf(file: Option<Bytes>): nat { if file.Some? then |file.value| else 0 }

  // ----- one attempt -------------------------------------------------------

  /** An oversized partial file is deleted first. */
  function Trimmed(partial: Option<Bytes>, size: nat): Option<Bytes> {
    if SizeOf(partial) > size then None else partial
  }

  /** Where the body is written: appended when the range was honoured, else from the start. */
  function Written(partial: Option<Bytes>, ranged: bool, bytes: Bytes): Bytes {
    if SizeOf(partial) > 0 && ranged then partial.value + bytes else bytes
  }

  /** The partial file after one attempt, and whether the attempt raised. */
  function Attempt(partial: Option<Bytes>, size: nat, response: Response): (r: (Option<Bytes>, bool)) {
    var p := Trimmed(partial, size);
    if SizeOf(p) >= size then (p, false)
    else
      match response
      case Refused => (p, true)
      case Body(ranged, bytes, dropped) => (Some(Written(p, ranged, bytes)), dropped)
  }

  datatype LoopEnd = Raised | Missing | Ended

  function Attempts(partial: Option<Bytes>, size: nat, server: seq<Response>): (r: (Option<Bytes>, LoopEnd))
    decreases |server|
  {
    if server == [] then (partial, Ended)
    else
      var (p, raised) := Attempt(partial, size, server[0]);
      if raised then (if |server| == 1 then (p, Raised) else Attempts(p, size, server[1..]))
      else if p.None? then (p, Missing)
      else if |p.value| == size then (p, Ended)
      else Attempts(p, size, server[1..])
  }

  // ----- the whole call ----------------------------------------------------

  predicate IsKept(f: Files, e: Entry) {
    f.destination.Some? && |f.destination.value| == e.size && f.marker == Some(e.sha256)
  }

  function Conclude(f: Files, e: Entry, end: LoopEnd): (r: (Files, Result)) {
    if end == Raised then (f, TransportFailed)
    else if end == Missing then (f, PartialMissing)
    else if f.partial.None? || |f.partial.value| != e.size then (f, WrongSize)
    else if e.digest(f.partial.value) != e.sha256 then (f.(partial := None), WrongDigest)
    else (Files(f.partial, Some(e.sha256), None), Verified)
  }

  /** One call of `download` with `|server|` retries. */
  function Call(f: Files, e: Entry, server: seq<Response>): (r: (Files, Result)) {
    if IsKept(f, e) then (f, Kept)
    else
      var (p, end) := Attempts(f.partial, e.size, server);
      Conclude(f.(partial := p), e, end)
  }

  predicate Succeeded(r: Result) { r == Kept || r == Verified }

  // ----- safety ------------------------------------------------------------

  ghost predicate Genuine(e: Entry, bytes: Bytes) {
    |bytes| == e.size && e.digest(bytes) == e.sha256
  }

  /** The marker is only ever present beside genuine bytes of the right size. */
  ghost predicate Trusted(f: Files, e: Entry) {
    IsKept(f, e) ==> Genuine(e, f.destination.value)
  }

  /** Every call keeps the marker trustworthy, whatever the server does and however it ends. */
  lemma {:induction false} CallKeepsTrust(f: Files, e: Entry, server: seq<Response>)
    requires Trusted(f, e)
    ensures Trusted(Call(f, e, server).0, e)
  {
  }

  /** A call reports success with genuine bytes exactly unless it found an untrustworthy marker. */
  lemma {:induction false} SuccessIsGenuine(f: Files, e: Entry, server: seq<Response>)
    requires Succeeded(Call(f, e, server).1)
    ensures Call(f, e, server).0.destination.Some?
    ensures Genuine(e, Call(f, e, server).0.destination.value) <==> Trusted(f, e)
  {
  }

  /** A stale marker beside other bytes of the same size is believed without a new digest. */
  lemma {:induction false} StaleMarkerIsBelieved()
    ensures var e := Entry(1, "a", (b: Bytes) => if b == [0] then "a" else "b");
            var f := Files(Some([1]), Some("a"), None);
            Call(f, e, []).1 == Kept && !Genuine(e, Call(f, e, []).0.destination.value)
  {
    var bytes: Bytes := [1];
    assert bytes != [0];
  }

  /** Files as successive calls leave them, starting without a marker. */
  ghost predicate IsHistory(history: seq<Files>, servers: seq<seq<Response>>, e: Entry) {
    && |history| == |servers| + 1 && history[0].marker.None?
    && forall i :: 0 <= i < |servers| ==> history[i + 1] == Call(history[i], e, servers[i]).0
  }

  /** Over every sequence of calls for one entry, every reported success left genuine bytes. */
  lemma {:induction false} EverySuccessIsGenuine(history: seq<Files>, servers: seq<seq<Response>>, e: Entry, i: nat)
    requires IsHistory(history, servers, e) && i < |history|
    ensures Trusted(history[i], e)
    ensures i < |servers| && Succeeded(Call(history[i], e, servers[i]).1) ==>
              history[i + 1].destination.Some? && Genuine(e, history[i + 1].destination.value)
  {
    if i > 0 {
      EverySuccessIsGenuine(history, servers, e, i - 1);
      CallKeepsTrust(history[i - 1], e, servers[i - 1]);
    }
    if i < |servers| && Succeeded(Call(history[i], e, servers[i]).1) {
      SuccessIsGenuine(history[i], e, servers[i]);
    }
  }

  // ----- several entries and crashes ----------------------------------------

  /** The marker, if there is one, names the digest of the destination. */
  ghost predicate MarkerNamesDigest(f: Files, digest: Bytes -> string) {
    f.marker.Some? ==> f.destination.Some? && f.marker.value == digest(f.destination.value)
  }

  /** Every call for any entry keeps that. */
  lemma {:induction false} CallKeepsMarker(f: Files, e: Entry, server: seq<Response>)
    requires MarkerNamesDigest(f, e.digest)
    ensures MarkerNamesDigest(Call(f, e, server).0, e.digest)
  {
  }

  /** Files as successive calls for possibly different entries leave them, starting without a marker. */
  ghost predicate IsMixedHistory(history: seq<Files>, entries: seq<Entry>, servers: seq<seq<Response>>,
                                 digest: Bytes -> string) {
    && |history| == |servers| + 1 == |entries| + 1 && history[0].marker.None?
    && (forall i :: 0 <= i < |entries| ==> entries[i].digest == digest)
    && forall i :: 0 <= i < |servers| ==> history[i + 1] == Call(history[i], entries[i], servers[i]).0
  }

  /** Over calls for any entries on one destination, every success leaves the bytes of its own entry. */
  lemma {:induction false} MixedSuccessIsGenuine(history: seq<Files>, entries: seq<Entry>, servers: seq<seq<Response>>,
                                                 digest: Bytes -> string, i: nat)
    requires IsMixedHistory(history, entries, servers, digest) && i < |history|
    ensures MarkerNamesDigest(history[i], digest)
    ensures i < |servers| && Succeeded(Call(history[i], entries[i], servers[i]).1) ==>
              history[i + 1].destination.Some? && Genuine(entries[i], history[i + 1].destination.value)
  {
    if i > 0 {
      MixedSuccessIsGenuine(history, entries, servers, digest, i - 1);
      CallKeepsMarker(history[i - 1], entries[i - 1], servers[i - 1]);
    }
    if i < |servers| && Succeeded(Call(history[i], entries[i], servers[i]).1) {
      SuccessIsGenuine(history[i], entries[i], servers[i]);
    }
  }

  /** The files after the replacement at line 141 and before the marker is written. */
  function AfterReplace(f: Files, e: Entry, server: seq<Response>): Files {
    Files(Attempts(f.partial, e.size, server).0, f.marker, None)
  }

  /** What a call that is cut short can leave: only the partial file changed, or an unfinished marker. */
  ghost predicate Crashed(f: Files, e: Entry, server: seq<Response>, g: Files) {
    || (g.destination == f.destination && g.marker == f.marker)
    || (Call(f, e, server).1 == Verified && g == AfterReplace(f, e, server))
    || (Call(f, e, server).1 == Verified && exists text: string ::
          text < e.sha256 && g == AfterReplace(f, e, server).(marker := Some(text)))
  }

  /** Calls for one entry, each of which may be cut short. */
  ghost predicate IsCrashHistory(history: seq<Files>, servers: seq<seq<Response>>, e: Entry) {
    && |history| == |servers| + 1 && history[0].marker.None?
    && forall i :: 0 <= i < |servers| ==>
         history[i + 1] == Call(history[i], e, servers[i]).0 || Crashed(history[i], e, servers[i], history[i + 1])
  }

  /** The bytes installed by a verified call, whether or not it got to its marker, are genuine. */
  lemma {:induction false} ReplacedIsGenuine(f: Files, e: Entry, server: seq<Response>)
    requires Call(f, e, server).1 == Verified
    ensures AfterReplace(f, e, server).destination.Some?
    ensures Genuine(e, AfterReplace(f, e, server).destination.value)
  {
  }

  lemma {:induction false} CrashKeepsTrust(f: Files, e: Entry, server: seq<Response>, g: Files)
    requires Trusted(f, e) && Crashed(f, e, server, g)
    ensures Trusted(g, e)
  {
    if Call(f, e, server).1 == Verified { ReplacedIsGenuine(f, e, server); }
  }

  /** For one entry, crashes at any point do no harm: every completed success is genuine. */
  lemma {:induction false} CrashesAreHarmless(history: seq<Files>, servers: seq<seq<Response>>, e: Entry, i: nat)
    requires IsCrashHistory(history, servers, e) && i < |history|
    ensures Trusted(history[i], e)
    ensures i < |servers| && Succeeded(Call(history[i], e, servers[i]).1)
            && history[i + 1] == Call(history[i], e, servers[i]).0 ==>
              history[i + 1].destination.Some? && Genuine(e, history[i + 1].destination.value)
  {
    if i > 0 {
      CrashesAreHarmless(history, servers, e, i - 1);
      if history[i] == Call(history[i - 1], e, servers[i - 1]).0 {
        CallKeepsTrust(history[i - 1], e, servers[i - 1]);
      } else {
        CrashKeepsTrust(history[i - 1], e, servers[i - 1], history[i]);
      }
    }
    if i < |servers| && Succeeded(Call(history[i], e, servers[i]).1) {
      SuccessIsGenuine(history[i], e, servers[i]);
    }
  }

  /**
   With a second entry on the same destination: after a crash between the replacement and the
   marker, a later call for `next` is misled exactly when the old marker names its digest and
   the new bytes have its size but another digest.
   */
  lemma {:induction false} CrashMisleadsIff(f: Files, e: Entry, server: seq<Response>, next: Entry)
    requires MarkerNamesDigest(f, e.digest) && next.digest == e.digest && Call(f, e, server).1 == Verified
    ensures Trusted(AfterReplace(f, e, server), next)
            <==> !(f.marker == Some(next.sha256) && next.size == e.size && next.sha256 != e.sha256)
  {
    ReplacedIsGenuine(f, e, server);
  }

  /** Two entries of one byte each: after the crash the first is reported kept with the second's bytes. */
  lemma {:induction false} CrashMisleads() returns (f: Files, e: Entry, next: Entry, server: seq<Response>)
    ensures MarkerNamesDigest(f, e.digest) && next.digest == e.digest && Call(f, e, server).1 == Verified
    ensures var g := AfterReplace(f, e, server);
            Call(g, next, []).1 == Kept && !Genuine(next, Call(g, next, []).0.destination.value)
  {
    var first: Bytes, second: Bytes := [0], [1];
    var digest: Bytes -> string := (b: Bytes) => if b == [0] then "a" else "b";
    assert first != second;
    f := Files(Some(first), Some("a"), None);
    e, next := Entry(1, "b", digest), Entry(1, "a", digest);
    server := [Body(false, second, false)];
    assert Attempt(None, 1, server[0]) == (Some(second), false);
    assert Attempts(None, 1, server) == (Some(second), Ended);
  }

  // ----- honest servers ----------------------------------------------------

  /** A body is a slice of one fixed content, from the offset it claims. */
  ghost predicate Honest(content: Bytes, have: nat, response: Response) {
    match response
    case Refused => true
    case Body(ranged, bytes, _) =>
      if have > 0 && ranged then have <= |content| && bytes <= content[have..] else bytes <= content
  }

  ghost predicate IsPrefix(file: Option<Bytes>, content: Bytes) {
    file.Some? ==> file.value <= content
  }

  lemma {:induction false} AttemptKeepsPrefix(partial: Option<Bytes>, size: nat, response: Response, content: Bytes)
    requires IsPrefix(partial, content) && Honest(content, SizeOf(Trimmed(partial, size)), response)
    ensures IsPrefix(Attempt(partial, size, response).0, content)
  {
    var p := Trimmed(partial, size);
    if response.Body? && SizeOf(p) > 0 && response.ranged {
      var have := |p.value|;
      assert content == content[..have] + content[have..];
      assert p.value == content[..have];
    }
  }

  /** Each answer is honest for the partial file it finds. */
  ghost predicate HonestServer(content: Bytes, partial: Option<Bytes>, size: nat, server: seq<Response>)
    decreases |server|
  {
    server == [] ||
    (&& Honest(content, SizeOf(Trimmed(partial, size)), server[0])
     && HonestServer(content, Attempt(partial, size, server[0]).0, size, server[1..]))
  }

  lemma {:induction false} AttemptsKeepPrefix(partial: Option<Bytes>, size: nat, server: seq<Response>, content: Bytes)
    requires IsPrefix(partial, content) && HonestServer(content, partial, size, server)
    ensures IsPrefix(Attempts(partial, size, server).0, content)
    decreases |server|
  {
    if server != [] {
      AttemptKeepsPrefix(partial, size, server[0], content);
      AttemptsKeepPrefix(Attempt(partial, size, server[0]).0, size, server[1..], content);
    }
  }

  /**
   With an honest server for the genuine content the partial file stays a prefix of it, the
   digest never mismatches, and a success installs exactly that content.
   */
  lemma {:induction false} HonestCall(f: Files, e: Entry, server: seq<Response>, content: Bytes)
    requires Genuine(e, content) && IsPrefix(f.partial, content)
    requires HonestServer(content, f.partial, e.size, server)
    ensures IsPrefix(Call(f, e, server).0.partial, content)
    ensures Call(f, e, server).1 != WrongDigest
    ensures Call(f, e, server).1 == Verified ==> Call(f, e, server).0.destination == Some(content)
  {
    AttemptsKeepPrefix(f.partial, e.size, server, content);
    var p := Attempts(f.partial, e.size, server).0;
    if p.Some? && |p.value| == e.size {
      assert p.value == content;
    }
  }

  /** Resuming loses nothing: an honoured range never shortens the partial file. */
  lemma {:induction false} ResumeGrows(partial: Option<Bytes>, size: nat, response: Response)
    requires SizeOf(partial) <= size && (response.Body? ==> response.ranged)
    ensures SizeOf(Attempt(partial, size, response).0) >= SizeOf(partial)
    ensures partial.Some? ==>
              Attempt(partial, size, response).0.Some? && partial.value <= Attempt(partial, size, response).0.value
  {
  }

  /** The answer that delivers the missing rest of the content and ends cleanly. */
  ghost predicate Completes(content: Bytes, have: nat, response: Response)
    requires have <= |content|
  {
    && response.Body? && !response.dropped
    && response.bytes == (if have > 0 && response.ranged then content[have..] else content)
  }

  /** Some answer completes the content, or finds it complete. */
  ghost predicate EventuallyCompletes(content: Bytes, partial: Option<Bytes>, size: nat, server: seq<Response>)
    decreases |server|
  {
    server != [] &&
    (|| SizeOf(partial) == |content|
     || (SizeOf(partial) <= |content| && Completes(content, SizeOf(partial), server[0]))
     || EventuallyCompletes(content, Attempt(partial, size, server[0]).0, size, server[1..]))
  }

  /** Against an honest server the retries succeed as soon as one answer completes the content. */
  lemma {:induction false} CompletionSucceeds(partial: Option<Bytes>, size: nat, server: seq<Response>, content: Bytes)
    requires |content| == size > 0 && IsPrefix(partial, content)
    requires HonestServer(content, partial, size, server) && EventuallyCompletes(content, partial, size, server)
    ensures Attempts(partial, size, server) == (Some(content), Ended)
    decreases |server|
  {
    var next := Attempt(partial, size, server[0]).0;
    AttemptKeepsPrefix(partial, size, server[0], content);
    if SizeOf(partial) == size {
      assert partial.value == content;
    } else if Completes(content, SizeOf(partial), server[0]) {
      if SizeOf(partial) > 0 && server[0].ranged {
        assert partial.value + content[|partial.value|..] == content;
      }
    } else {
      if next.Some? && |next.value| == size { assert next.value == content; }
      CompletionSucceeds(next, size, server[1..], content);
    }
  }

  /** A zero-byte entry is never fetched: without a partial file the call raises before any check. */
  lemma {:induction false} ZeroSizeIsNeverFetched(f: Files, e: Entry, server: seq<Response>)
    requires e.size == 0 && !IsKept(f, e) && server != []
    ensures Call(f, e, server).1 == PartialMissing <==> f.partial.None? || |f.partial.value| > 0
  {
  }

  // ----- what a call leaves behind --------------------------------------------

  /** A failed call leaves destination and marker as it found them; a kept file leaves everything. */
  lemma {:induction false} FailureKeepsFiles(f: Files, e: Entry, server: seq<Response>)
    ensures !Succeeded(Call(f, e, server).1) ==>
              Call(f, e, server).0.destination == f.destination && Call(f, e, server).0.marker == f.marker
    ensures Call(f, e, server).1 == Kept ==> Call(f, e, server).0 == f
  {
  }

  /** A partial file with the wrong digest is deleted; a verified one becomes the destination with its marker. */
  lemma {:induction false} NoPartialAfterDigest(f: Files, e: Entry, server: seq<Response>)
    ensures Call(f, e, server).1 == WrongDigest ==> Call(f, e, server).0.partial == None
    ensures Call(f, e, server).1 == Verified ==>
              && Call(f, e, server).0.partial == None && Call(f, e, server).0.marker == Some(e.sha256)
              && Call(f, e, server).0.destination == Attempts(f.partial, e.size, server).0
  {
  }

  /** A partial file that is too long is discarded before the first attempt. */
  lemma {:induction false} OversizedIsDiscarded(f: Files, e: Entry, server: seq<Response>)
    requires SizeOf(f.partial) > e.size && server != [] && !IsKept(f, e)
    ensures Call(f, e, server) == Call(f.(partial := None), e, server)
  {
    assert Attempt(f.partial, e.size, server[0]) == Attempt(None, e.size, server[0]);
  }

  /** Only a digest mismatch or a success loses bytes: any other failure keeps what was received. */
  lemma {:induction false} OtherFailuresKeepBytes(f: Files, e: Entry, server: seq<Response>)
    requires Call(f, e, server).1 in {TransportFailed, PartialMissing, WrongSize}
    ensures Call(f, e, server).0.partial == Attempts(f.partial, e.size, server).0
    ensures Call(f, e, server).1 == WrongSize ==> SizeOf(Call(f, e, server).0.partial) != e.size || e.size == 0
  {
  }

  /** An honest server that completes the content makes the call succeed with it. */
  lemma {:induction false} CompletedCallVerifies(f: Files, e: Entry, server: seq<Response>, content: Bytes)
    requires Genuine(e, content) && e.size > 0 && !IsKept(f, e) && IsPrefix(f.partial, content)
    requires HonestServer(content, f.partial, e.size, server) && EventuallyCompletes(content, f.partial, e.size, server)
    ensures Call(f, e, server) == (Files(Some(content), Some(e.sha256), None), Verified)
  {
    CompletionSucceeds(f.partial, e.size, server, content);
  }

  /** After a wrong digest the next call starts afresh, and ends verified once an honest server completes. */
  lemma {:induction false} WrongDigestIsRecoverable(f: Files, e: Entry, bad: seq<Response>, good: seq<Response>,
                                                    content: Bytes)
    requires Call(f, e, bad).1 == WrongDigest && Genuine(e, content) && e.size > 0
    requires HonestServer(content, None, e.size, good) && EventuallyCompletes(content, None, e.size, good)
    ensures Call(Call(f, e, bad).0, e, good) == (Files(Some(content), Some(e.sha256), None), Verified)
  {
    FailureKeepsFiles(f, e, bad);
    NoPartialAfterDigest(f, e, bad);
    CompletedCallVerifies(Call(f, e, bad).0, e, good, content);
  }

  // ----- the procedure -----------------------------------------------------

  /** The folder whose files `download` changes. */
  class Folder {
    var destination: Option<Bytes>
    var marker: Option<string>
    var partial: Option<Bytes>

    ghost function State(): Files
      reads this
    {
      Files(destination, marker, partial)
    }

    constructor ()
      ensures State() == Files(None, None, None)
    {
      destination, marker, partial := None, None, None;
    }

    /** The retry loop over the files; it is the function `Call` of the files it finds. */
    method Download(e: Entry, server: seq<Response>) returns (result: Result)
      modifies this
      ensures (State(), result) == Call(old(State()), e, server)
    {
      if destination.Some? && |destination.value| == e.size && marker == Some(e.sha256) {
        return Kept;
      }
      for attempt := 0 to |server|
        invariant destination == old(destination) && marker == old(marker)
        invariant Attempts(old(partial), e.size, server) == Attempts(partial, e.size, server[attempt..])
      {
        var response := server[attempt];
        assert server[attempt..][0] == response && server[attempt..][1..] == server[attempt + 1..];
        var have := if partial.Some? then |partial.value| else 0;
        if have > e.size {
          partial := None;
          have := 0;
        }
        if have < e.size {
          var raised := response.Refused?;
          if response.Body? {
            var offset := if have > 0 && !response.ranged then 0 else have;
            var kept := if have > 0 && offset == have then partial.value[..offset] else [];
            assert have > 0 ==> partial.value[..have] == partial.value;
            assert [] + response.bytes == response.bytes;
            partial := Some(kept + response.bytes);
            raised := response.dropped;
          }
          if raised {
            if attempt == |server| - 1 {
              return TransportFailed;
            }
            continue;
          }
        }
        if partial.None? {
          return PartialMissing;
        }
        if |partial.value| == e.size {
          break;
        }
      }
      if partial.None? || |partial.value| != e.size {
        return WrongSize;
      }
      if e.digest(partial.value) != e.sha256 {
        partial := None;
        return WrongDigest;
      }
      destination, partial := partial, None;
      marker := Some(e.sha256);
      result := Verified;
    }
  }
}
