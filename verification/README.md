# Mycroft speech-to-text core, modelled in Dafny

This project models the deterministic decision logic around Mycroft's
speech-to-text (STT) backends, as found in `mycroft/stt/__init__.py` and
in the command-line builders of `mycroft/util/audio_utils.py`. Every
vendor call, thread, subprocess and configuration lookup is turned into a
parameter or left out.

The modules follow the program's structure:

- `Outcomes` (outcomes.dfy) defines `Option` and `Outcome` (a value was
  returned, or an exception was raised) and the exceptions the core raises.
  `Config` models a JSON configuration value, Python truthiness and
  `dict.get`.
- `Text` (text.dfy) holds Python string helpers: `str.split` with an
  explicit separator, its inverse `join`, ASCII `lower`/`upper`, and
  `str(int)` with a parser that reads it back.
- `Language` (language.dfy) covers `STT.init_language` and the
  `language or self.lang` override the adapters use.
- `Streaming` (streaming.dfy) is the `StreamingSTT`/`StreamThread` state
  machine. It has two states: idle, or one worker with its queue. Queue
  items are chunks or `None`, the end-of-stream sentinel. Joining the
  worker means the worker consumes the queue up to the first sentinel and
  hands what it got to the vendor's handler.
- `GoogleStream` (google_stream.dfy) is the fold in
  `GoogleStreamThread.handle_audio_stream`: the last final result wins.
- `Pairing` (pairing.dfy) is the `requires_pairing` decorator.
- `Factory` (factory.dfy) is `STTFactory.create`, with its built-in class
  table, a plugin-loader oracle, a constructor oracle and the fallback to
  `mycroft`.
- `Vendors` (vendors.dfy) holds the pure parts of three adapters:
  - Yandex: sample-rate snapping and the language check.
  - IBM: the request checks and model choice.
  - Kaldi: the `[noise]` scrub, written out as the regular expression's
    left-to-right matching.
- `AudioUtils` (audio_utils.dfy) covers:
  - `%1` substitution in `_play_cmd`;
  - the pulse-ducking environment choice;
  - `record`'s `arecord` command line;
  - the `mpg123` conversion behind `play_mp3_sync`;
  - extension dispatch in `play_audio_file`, with `os.path.splitext`
    written out.

Three behaviours of the code are easy to misread, and the model follows
the code in each:

- **Google streaming keeps final results only.** The docstring of
  `handle_audio_stream` (`mycroft/stt/__init__.py:396-405`) speaks of
  updating `self.text` with "the current hypothesis". Google's
  implementation writes `self.text` only for a result whose `is_final` is
  set, so interim hypotheses never reach the result.
  `GoogleStream.LastFinal` models that.
- **A crashed worker still reports its last transcript.** An exception
  inside `handle_audio_stream` ends the thread, but the worker's `text`
  keeps whatever it was last set to, and `stream_stop` returns that value.
  `GoogleStream.HandleResponses` keeps the last final transcript seen
  before the crash.
- **A new worker does not get the per-call language.** The docstring of
  `stream_start` offers a language "for the new stream", and the method
  computes `language or self.lang`, but it never passes that value on.
  `create_streaming_thread` binds the worker to a language the backend
  fixed at construction: DeepSpeech passes `self.lang`, and Google passes
  `self.language`, which its constructor sets from its own `lang`
  configuration or `self.lang` (lines 549 and 569).
  `Streaming.StreamStart` models that.

## Model

| member | source | states |
|---|---|---|
| Text.Split | mycroft/stt/__init__.py:47 | `str.split(sep)` gives one more part than there are separators, no part holds the separator, and joining the parts with it gives the input back |
| Text.SplitJoin | mycroft/stt/__init__.py:47 | splitting the join of separator-free parts gives those parts back |
| Text.IntToStringRoundTrip | mycroft/util/audio_utils.py:253 | `str(n)` of any integer is a well-formed integer literal that parses back to `n` |
| Config.FalsyValues | mycroft/util/audio_utils.py:70 | a configuration value is falsy exactly when it is `None`, `False`, `0`, `0.0`, `""`, `[]` or `{}` |
| Language.NormalizeLocale | mycroft/stt/__init__.py:46-50 | a tag with exactly one `-` becomes lower-case before the dash and upper-case after it; any other tag comes back unchanged; the length never changes |
| Language.NormalizeLocaleIdempotent | mycroft/stt/__init__.py:47-50 | normalising twice is the same as normalising once |
| Language.NormalizeTwoPartExamples | mycroft/stt/__init__.py:48-49 | `en-us` and `EN-us` both normalise to `en-US` |
| Language.NormalizeOtherShapesExamples | mycroft/stt/__init__.py:50 | `zh` and `zh-hans-cn` are returned as they are |
| Language.InitLanguage | mycroft/stt/__init__.py:44-50 | with no `lang` key the result is `en-US`; a string is normalised; any other value raises `AttributeError` |
| Language.ResolveLanguage | mycroft/stt/__init__.py:166 | a non-empty per-call language wins; `None` or the empty string keeps the instance's language |
| Streaming.Delivered | mycroft/stt/__init__.py:382-389 | what the generator yields is a prefix of the queue's chunks, in queue order, and it stops exactly at the first sentinel |
| Streaming.GetData | mycroft/stt/__init__.py:382-389 | the generator loop yields exactly `Delivered(q)`, and it ends by seeing a sentinel exactly when the queue holds one |
| Streaming.DeliveredUpTo | mycroft/stt/__init__.py:384-388 | any run of chunks that is followed by a sentinel or by the end of the queue is exactly what is delivered |
| Streaming.DeliveredStopsAtSentinel | mycroft/stt/__init__.py:386-387 | nothing queued after the first sentinel is ever delivered |
| Streaming.DeliveredAllChunks | mycroft/stt/__init__.py:384-388 | a queue of chunks only is delivered whole and in order |
| Streaming.StreamStop | mycroft/stt/__init__.py:447-456 | with no stream it returns `None` and changes nothing; with one it returns what the handler makes of the chunks before the first sentinel; either way the backend ends with no worker and no queue |
| Streaming.StreamStart | mycroft/stt/__init__.py:425-429 | afterwards exactly one worker exists; it is fresh (`text` is `None`), bound to the backend's language rather than the per-call one, and its queue is empty |
| Streaming.StreamData | mycroft/stt/__init__.py:431-437 | with a stream, the item is appended to the queue and nothing else changes; without one, the call raises `AttributeError` |
| Streaming.Execute | mycroft/stt/__init__.py:458-460 | ignores the audio and the language and behaves as `stream_stop` |
| Streaming.FeedAppends | mycroft/stt/__init__.py:431-437 | a run of `stream_data` calls on a running stream appends every item, in order, and touches nothing else |
| Streaming.SessionDeliversUpToSentinel | mycroft/stt/__init__.py:416-456 | start, any run of data, stop: the handler receives exactly the items before the first sentinel, in submission order, and the backend ends idle |
| Streaming.SessionDeliversInOrder | mycroft/stt/__init__.py:382-389 | when only chunks are sent, the handler receives all of them, in order, exactly once |
| Streaming.StopIdempotent | mycroft/stt/__init__.py:447-456 | a second `stream_stop` returns `None` and changes nothing |
| Streaming.StartIsStopThenStart | mycroft/stt/__init__.py:425 | starting while a stream runs is the same as stopping it first |
| GoogleStream.LastFinal | mycroft/stt/__init__.py:519-521 | the text is the transcript of the last response that carries a final result, and `None` when no response does |
| GoogleStream.EffectOf | mycroft/stt/__init__.py:519-521 | a response leaves the text alone exactly when it has no results or its first result is interim; it crashes the thread exactly when that result is final with no alternatives; otherwise it sets the text to the first alternative's transcript |
| GoogleStream.FirstCrash | mycroft/stt/__init__.py:520-521 | the index of the first final result without alternatives (where `alternatives[0]` raises), or the number of responses when there is none |
| GoogleStream.HandleResponses | mycroft/stt/__init__.py:516-522 | the loop crashes exactly when some final result has no alternatives, and it keeps the last final transcript seen before that point |
| GoogleStream.StreamText | mycroft/stt/__init__.py:516-522 | the worker's text is the transcript of the last response before the first crash that sets one, and `None` only when none of those responses sets one |
| GoogleStream.StreamTextIgnoresAfterCrash | mycroft/stt/__init__.py:519-522 | whatever follows the response that crashes the thread, the text is the last final transcript before it |
| GoogleStream.GoogleSessionText | mycroft/stt/__init__.py:416-456 | a whole Google session returns the last final transcript the recogniser gives for all the chunks sent, up to any crash |
| GoogleStream.TrailingInterimIgnored | mycroft/stt/__init__.py:519-521 | interim results that arrive after a final one never replace its transcript |
| Pairing.PairingGuard | mycroft/stt/__init__.py:294-302 | a result passes unchanged; `HTTPError` 401 becomes `pair my device`; other HTTP errors and all other exceptions are raised again unchanged |
| Pairing.RequiresPairing | mycroft/stt/__init__.py:285-304 | the wrapped function applies the guard to every outcome of the original |
| Pairing.GuardChangesOnly401 | mycroft/stt/__init__.py:296-302 | the wrapper changes an outcome if and only if that outcome is `HTTPError` 401 |
| Pairing.PhraseOnlyFrom401 | mycroft/stt/__init__.py:297-300 | the pairing phrase comes out exactly when the call returned it itself or was refused with 401 |
| Pairing.RequiresPairingIdempotent | mycroft/stt/__init__.py:293-304 | wrapping a function twice behaves as wrapping it once |
| Factory.Lookup | mycroft/stt/__init__.py:757-761 | a name in the class table resolves through the table; any other name goes to the plugin loader |
| Factory.Create | mycroft/stt/__init__.py:751-772 | a configured backend that resolves and constructs is returned; when it fails, a module other than `mycroft` falls back to `MycroftSTT`; a failing `mycroft` re-raises its own error; any returned instance is what its class's constructor built |
| Factory.CreateFailsOnlyWithDefault | mycroft/stt/__init__.py:764-772 | with the built-in table, the factory raises only when `MycroftSTT` itself cannot be constructed |
| Factory.DefaultFailureIsFatal | mycroft/stt/__init__.py:769-772 | when `mycroft` is configured and fails, that same exception propagates, with no second fallback |
| Factory.UnknownModuleFallsBack | mycroft/stt/__init__.py:760-770 | a module that is neither built in nor loadable yields `MycroftSTT` |
| Factory.BuiltinShadowsPlugins | mycroft/stt/__init__.py:757-761 | for a built-in name, the plugin loader never affects the result |
| Factory.MissingModuleIsDefault | mycroft/stt/__init__.py:755 | a missing `module` key behaves exactly like `"module": "mycroft"` |
| Vendors.SelectSampleRate | mycroft/stt/__init__.py:249-259 | the rate is always 8000, 16000 or 48000; it is the source rate when that is supported; otherwise it is the smallest supported rate above the source; above every supported rate it is 48000 |
| Vendors.YandexLanguage | mycroft/stt/__init__.py:244-247 | the resolved language is always stored on the instance; the call goes on if and only if that language is `en-US`, `ru-RU` or `tr-TR`, and raises `ValueError` otherwise |
| Vendors.YandexRejectionPersists | mycroft/stt/__init__.py:244-247 | after a rejected language, a later call without a language of its own is rejected the same way, because the rejected language was stored |
| Vendors.IbmRequestFor | mycroft/stt/__init__.py:157-181 | a missing or empty key raises `ValueError`, and every failure is a `ValueError`; a request needs a key, a URL and a supported language, and all three suffice; the resolved language is stored once the key and URL checks pass, before the language check, and only then; the URL ends in `/v1/recognize`; the narrowband model is chosen if and only if the rate is below 16000 and the language is not `ar-AR` |
| Vendors.IbmRejectionPersists | mycroft/stt/__init__.py:157-172 | after any failed call, a later call with the same credentials and no language of its own fails too, whatever its audio rate |
| Vendors.MissingTokenSlipsThrough | mycroft/stt/__init__.py:75 | as written, a credential without a token still produces a request, because the stored key is the string `None` |
| Vendors.IbmRequestChecked | mycroft/stt/__init__.py:158-159 | with the intended check, a credential without a token, or with an empty one, is refused with `ValueError` |
| Vendors.CheckedAgreesWhenTokenPresent | mycroft/stt/__init__.py:75 | the corrected check and the one as written agree whenever a token is configured; they differ only when the token is missing |
| Vendors.StripNoise | mycroft/stt/__init__.py:586 | scrubbing `[noise]` never lengthens the text |
| Vendors.StripNoiseWithoutBracket | mycroft/stt/__init__.py:586 | text without a `[` comes back unchanged |
| Vendors.StripNoiseKeepsPlainPrefix | mycroft/stt/__init__.py:586 | a leading word without whitespace or `[` is kept verbatim, whatever follows it |
| Vendors.StripNoiseDropsTag | mycroft/stt/__init__.py:586 | a tag vanishes together with all the whitespace around it |
| Vendors.StripNoiseTagThenText | mycroft/stt/__init__.py:586 | a tag directly followed by bracket-free text leaves just that text |
| Vendors.StripNoiseSplitTag | mycroft/stt/__init__.py:586 | a tag cut in two by another tag loses the inner tag and its halves join up |
| Vendors.StripNoiseNotIdempotent | mycroft/stt/__init__.py:586 | one scrub can leave a fresh `[noise]` behind, so the scrub is not idempotent |
| AudioUtils.Extension | mycroft/util/audio_utils.py:48 | the extension is non-empty if and only if the last `.` comes after the last `/` and the file name has a character other than `.` before it; it then runs from that `.` to the end, and otherwise it is empty |
| AudioUtils.SelectPlayer | mycroft/util/audio_utils.py:43-49 | a player is found if and only if the lower-cased extension is `.wav`, `.mp3` or `.ogg`, and it is the player for that extension |
| AudioUtils.SelectPlayerMatchesExtension | mycroft/util/audio_utils.py:43-49 | a player is chosen exactly when the lower-cased extension is the one it plays |
| AudioUtils.SelectPlayerUnsupported | mycroft/util/audio_utils.py:49-56 | no player is chosen exactly when the lower-cased extension is none of `.wav`, `.mp3`, `.ogg` |
| AudioUtils.AsWrittenFailsForWavAndMp3 | mycroft/util/audio_utils.py:43-51 | as written, playing raises exactly for `.wav` and `.mp3` files |
| AudioUtils.AsWrittenWavExample | mycroft/util/audio_utils.py:51 | as written, `a.wav` raises `TypeError` |
| AudioUtils.PlayAudioFile | mycroft/util/audio_utils.py:43-56 | a player is started for `uri` if and only if its lower-cased extension is `.wav`, `.mp3` or `.ogg`, and it is the player for that extension |
| AudioUtils.PlayMp3Sync | mycroft/util/audio_utils.py:165-176 | the target is `uri + ".wav"`, and the converter line is `mpg123 -w <target> <uri>` |
| AudioUtils.Mp3TargetIsWav | mycroft/util/audio_utils.py:166 | the conversion target has extension `.wav` and would itself be dispatched to the wav player |
| AudioUtils.Materialize | mycroft/util/audio_utils.py:63-73 | the ducked environment sets `PULSE_PROP=media.role=music` and otherwise agrees with the environment as it was when the module was imported; the plain one is the live process environment |
| AudioUtils.PulseEnvironment | mycroft/util/audio_utils.py:67-73 | the ducked environment is chosen if and only if `tts` is a dictionary with a truthy `pulse_duck`; a truthy `tts` that is not a dictionary raises; otherwise the process environment is used |
| AudioUtils.PlayArgv | mycroft/util/audio_utils.py:88-89 | the command line has as many elements as the command has space-separated parts; elements exactly equal to `%1` become `uri`, and all others are kept |
| AudioUtils.PlayArgvPlaceholderFixed | mycroft/util/audio_utils.py:89 | substituting `%1` by itself gives the plain split back |
| AudioUtils.PlayArgvWithoutPlaceholder | mycroft/util/audio_utils.py:88-89 | a command with no `%1` element runs verbatim: rejoining its command line with spaces gives the command back |
| AudioUtils.PlayCmd | mycroft/util/audio_utils.py:76-92 | the command line is always the substituted split of `cmd`; a non-empty caller environment is used as it is; otherwise the environment is the one the pulse choice stands for, and that choice's failure propagates |
| AudioUtils.DuckingIsExplicitEnvironment | mycroft/util/audio_utils.py:67-92 | configuring ducking launches the same command line in the same environment as passing the ducked environment explicitly |
| AudioUtils.RecordArgv | mycroft/util/audio_utils.py:253-255 | starts with `arecord -r <rate> -c <channels>`; contains `-d <duration>` if and only if the duration is positive; ends with the file path |
| AudioUtils.RecordArgvReadsBack | mycroft/util/audio_utils.py:253-254 | the rate, the channels and a positive duration can each be parsed back from the command line |

## Left out

- Vendor transports and SDKs are not modelled: `post`/`put`, `Recognizer.recognize_*`, `STTApi.stt`, and the Google, Baidu and Azure clients. A streaming vendor's work is a handler parameter, from the session language and the delivered chunks to the worker's final `text`; Google's recogniser is a parameter from chunks to responses. The other adapters also store `language or self.lang` on the instance (lines 107, 119, 321, 597, 607); that write-back is modelled only for Yandex and IBM, whose checks depend on it.
- Real threading and `Queue` blocking are not modelled. Joining the worker means the worker has consumed the queue up to the first sentinel. A worker that has not reached a sentinel is not observed.
- Streaming.StreamStart: the per-call `language` is resolved by the source but never handed to the worker, so the model does not use it. The `ValueError` that the DeepSpeech stream thread raises for non-English languages is left out with the vendor code.
- Streaming.StreamStop: the worker's `text` is observed only after the join. Updates it makes while it runs are not modelled.
- Configuration loading and logging are not modelled. `Configuration.get` is assumed to succeed: when it raises, `module` is unbound in the handler, and that case is not modelled. Credential values are plain strings.
- Factory.Create: the constructors of all classes, built-in or plugin, are one oracle. Their internals, such as the configuration each adapter reads, are not modelled. `load_plugin` internals are not modelled either.
- Text.Lower and Text.Upper: they map ASCII letters only. Python's full Unicode case mapping is not modelled.
- AudioData encodings (`get_flac_data`, `get_wav_data`, `get_raw_data`) are not modelled. Neither are the HTTP result parsing of the IBM, Yandex and Kaldi adapters, nor the `hypotheses[0]["utterance"]` lookup around Kaldi's scrub.
- Subprocess launching, pyaudio playback, the wave-file loop in `play_wav_sync`, `play_wav`/`play_mp3`/`play_ogg` configuration lookups, and `find_input_device` are I/O and are not modelled. A configured command is taken as a string, so a missing one rendered by `str(None)` is simply the string `None`.
- AudioUtils.RecordArgv: the duration is an integer. A fractional duration, which `str` would print with a decimal point, is not modelled.
- AudioUtils.PlayMp3Sync: the wav file is played only if the converter process started. That condition is I/O and is not modelled.
- Vendors.StripNoise: its contract bounds the length. The exact result is pinned down by the lemmas listed above rather than by a single closed form. Note that the scrub drops the whitespace on both sides of a tag, so the words around it are glued together.

## Findings

| source | as written | input that shows it | evidently intended | confidence | as-written member | corrected member |
|---|---|---|---|---|---|---|
| mycroft/util/audio_utils.py:43-51 | `play_audio_file` calls the chosen player with `(uri, environment)`, but `play_wav_sync` and `play_mp3_sync` take only `uri`, so every `.wav` and `.mp3` file raises `TypeError` | `a.wav` | the chosen player is started on `uri` for `.wav`, `.mp3` and `.ogg` alike | not executed | AudioUtils.PlayAudioFileAsWritten | AudioUtils.PlayAudioFile |
| mycroft/stt/__init__.py:75 | `TokenSTT` stores `str(credential.get("token"))`, so a missing token becomes the non-empty string `None` and IBM's `if not self.token` check never fires | a credential with no `token` key, URL `https://stt.example`, language `en-US` | a missing token is refused with "API key (token) for IBM Cloud is not defined." | not executed | Vendors.IbmRequestAsWritten | Vendors.IbmRequestChecked |
