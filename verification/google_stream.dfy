/** The result fold of `GoogleStreamThread.handle_audio_stream`: the worker
    walks the responses of Google's streaming recogniser and keeps the
    transcript of the last final result as its `text`. */
module GoogleStream {
  import opened Outcomes
  import Streaming

  datatype Alternative = Alternative(transcript: string)
  datatype SpeechResult = SpeechResult(isFinal: bool, alternatives: seq<Alternative>)
  datatype Response = Response(results: seq<SpeechResult>)

  /** What one response does to the worker's text: nothing (no results, or
      an interim first result), set it to the first alternative of a final
      first result, or crash the thread (a final result with no alternatives
      makes `alternatives[0]` raise `IndexError`). */
  datatype Effect = Keep | SetText(transcript: string) | Crash

  function EffectOf(res: Response): (e: Effect)
    ensures e.Keep? <==> |res.results| == 0 || !res.results[0].isFinal
    ensures e.Crash? <==> |res.results| > 0 && res.results[0].isFinal && |res.results[0].alternatives| == 0
    ensures e.SetText? ==>
      |res.results| > 0 && |res.results[0].alternatives| > 0 &&
      e.transcript == res.results[0].alternatives[0].transcript
  {
    if |res.results| == 0 || !res.results[0].isFinal then Keep
    else if |res.results[0].alternatives| == 0 then Crash
    else SetText(res.results[0].alternatives[0].transcript)
  }

  /** The transcript of the last response that sets one, looking at no
      other response; `None` when none does. */
  function LastFinal(rs: seq<Response>): (t: Option<string>)
    ensures t.None? ==> forall i :: 0 <= i < |rs| ==> !EffectOf(rs[i]).SetText?
    ensures t.Some? ==>
      exists i :: 0 <= i < |rs| && EffectOf(rs[i]) == SetText(t.value) &&
        forall j :: i < j < |rs| ==> !EffectOf(rs[j]).SetText?
  {
    if rs == [] then None
    else
      var last := |rs| - 1;
      match EffectOf(rs[last])
      case SetText(t) => Some(t)
      case _ =>
        var t := LastFinal(rs[..last]);
        assert forall i :: 0 <= i < last ==> rs[..last][i] == rs[i];
        t
  }

  /** Index of the first response at or after `i` that crashes the
      thread, or `|rs|`. */
  function FirstCrashFrom(rs: seq<Response>, i: nat): (k: nat)
    requires i <= |rs|
    ensures i <= k <= |rs|
    ensures forall j :: i <= j < k ==> !EffectOf(rs[j]).Crash?
    ensures k < |rs| ==> EffectOf(rs[k]).Crash?
    decreases |rs| - i
  {
    if i == |rs| then |rs|
    else if EffectOf(rs[i]).Crash? then i
    else FirstCrashFrom(rs, i + 1)
  }

  /** Index of the first response that crashes the thread, or `|rs|`. */
  function FirstCrash(rs: seq<Response>): (k: nat)
    ensures k <= |rs|
    ensures forall i :: 0 <= i < k ==> !EffectOf(rs[i]).Crash?
    ensures k < |rs| ==> EffectOf(rs[k]).Crash?
  {
    FirstCrashFrom(rs, 0)
  }

  /** The loop over `responses`. The thread keeps the last final transcript
      seen before it stops, whether it stops because the responses ran out
      or because one of them crashed it. */
  method HandleResponses(responses: seq<Response>) returns (text: Option<string>, crashed: bool)
    ensures crashed <==> FirstCrash(responses) < |responses|
    ensures text == LastFinal(responses[..FirstCrash(responses)])
  {
    text := None;
    crashed := false;
    var i := 0;
    while i < |responses|
      invariant 0 <= i <= |responses|
      invariant forall j :: 0 <= j < i ==> !EffectOf(responses[j]).Crash?
      invariant text == LastFinal(responses[..i])
    {
      assert responses[..i + 1][..i] == responses[..i];
      match EffectOf(responses[i]) {
        case Crash =>
          crashed := true;
          return;
        case SetText(t) =>
          text := Some(t);
        case Keep =>
      }
      i := i + 1;
    }
    assert responses[..i] == responses;
  }

  /** The worker's final text for a run of responses (the functional form
      of `HandleResponses`). */
  function StreamText(rs: seq<Response>): (t: Option<string>)
    ensures t.None? ==> forall i :: 0 <= i < FirstCrash(rs) ==> !EffectOf(rs[i]).SetText?
    ensures t.Some? ==>
      exists i :: 0 <= i < FirstCrash(rs) && EffectOf(rs[i]) == SetText(t.value) &&
        forall j :: i < j < FirstCrash(rs) ==> !EffectOf(rs[j]).SetText?
  {
    var prefix := rs[..FirstCrash(rs)];
    assert forall i :: 0 <= i < |prefix| ==> prefix[i] == rs[i];
    LastFinal(prefix)
  }

  /** Nothing Google sends after the response that crashes the thread can
      change the worker's text. */
  lemma StreamTextIgnoresAfterCrash(rs: seq<Response>, crash: Response, tail: seq<Response>)
    requires forall i :: 0 <= i < |rs| ==> !EffectOf(rs[i]).Crash?
    requires EffectOf(crash).Crash?
    ensures StreamText(rs + [crash] + tail) == LastFinal(rs)
  {
    var all := rs + [crash] + tail;
    assert all[..|rs|] == rs;
    FirstCrashIs(all, |rs|);
  }

  /** The first crash is the crashing response with no crash before it. */
  lemma FirstCrashIs(rs: seq<Response>, n: nat)
    requires n < |rs| && EffectOf(rs[n]).Crash?
    requires forall i :: 0 <= i < n ==> !EffectOf(rs[i]).Crash?
    ensures FirstCrash(rs) == n
  {
    var k := FirstCrash(rs);
    assert k <= n;
  }

  /** Interim results that arrive after a final one do not override it. */
  lemma {:induction false} TrailingInterimIgnored(rs: seq<Response>, tail: seq<Response>)
    requires forall i :: 0 <= i < |tail| ==> !EffectOf(tail[i]).SetText?
    ensures LastFinal(rs + tail) == LastFinal(rs)
    decreases |tail|
  {
    if tail != [] {
      var init := tail[..|tail| - 1];
      assert (rs + tail)[..|rs + tail| - 1] == rs + init;
      TrailingInterimIgnored(rs, init);
    } else {
      assert rs + tail == rs;
    }
  }

  /** Google's streaming adapter as a `Streaming.Handler`: `recognize`
      stands for the remote recogniser, turning the session's chunks into
      a run of responses. */
  function GoogleHandler(recognize: (string, seq<Streaming.Bytes>) -> seq<Response>): Streaming.Handler {
    (language: string, chunks: seq<Streaming.Bytes>) => StreamText(recognize(language, chunks))
  }

  /** A whole Google session: the text `stream_stop` returns is the last
      final transcript the recogniser produced for all the chunks sent,
      before any response that crashed the worker. */
  lemma GoogleSessionText(s: Streaming.StreamingStt, language: Option<string>, chunks: seq<Streaming.Bytes>,
                          recognize: (string, seq<Streaming.Bytes>) -> seq<Response>)
    ensures Streaming.Feed(Streaming.StreamStart(s, language, GoogleHandler(recognize)), Streaming.Queued(chunks)).Returned?
    ensures Streaming.StreamStop(
              Streaming.Feed(Streaming.StreamStart(s, language, GoogleHandler(recognize)), Streaming.Queued(chunks)).value,
              GoogleHandler(recognize)).text
            == StreamText(recognize(s.lang, chunks))
  {
    Streaming.SessionDeliversInOrder(s, language, chunks, GoogleHandler(recognize));
  }
}
