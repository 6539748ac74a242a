/** The command lines, environments and player choices that the audio
    helpers hand to `subprocess`; the processes themselves and the pyaudio
    playback and recording loops are left out. */
module AudioUtils {
  import opened Outcomes
  import opened Config
  import opened Text

  // -------------------------------------------------------- path extension

  /** Python's `str.rfind` for one character: the last index of `c` in `s`,
      or -1 when there is none. */
  function RFind(s: string, c: char): (i: int)
    ensures -1 <= i < |s|
    ensures i >= 0 ==> s[i] == c
    ensures forall j :: i < j < |s| ==> s[j] != c
  {
    if s == [] then -1
    else if s[|s| - 1] == c then |s| - 1
    else RFind(s[..|s| - 1], c)
  }

  /** Appending one character moves the last `c` to it exactly when it
      is `c`. */
  lemma RFindSnoc(s: string, x: char, c: char)
    ensures RFind(s + [x], c) == if x == c then |s| else RFind(s, c)
  {
    assert (s + [x])[..|s|] == s;
  }

  /** Whether the file name after the last `/` has a character other than
      `.` before position `dot`: `splitext` treats a name made only of
      leading dots (`.bashrc`, `..`) as having no extension. */
  predicate StemBefore(p: string, sepIndex: int, dot: int)
    requires -1 <= sepIndex && dot <= |p|
  {
    exists k :: sepIndex + 1 <= k < dot && p[k] != '.'
  }

  /** `os.path.splitext(p)[1]` on POSIX: from the last `.` of the file
      name to the end, or empty when the name has no such dot or only
      leading dots before it. */
  function Extension(p: string): (ext: string)
    ensures |ext| <= |p| && ext == p[|p| - |ext|..]
    ensures ext != [] ==> ext[0] == '.' && '.' !in ext[1..] && '/' !in ext
    ensures ext != [] <==>
      RFind(p, '.') > RFind(p, '/') && StemBefore(p, RFind(p, '/'), RFind(p, '.'))
    ensures ext != [] ==> ext == p[RFind(p, '.')..]
  {
    var sepIndex := RFind(p, '/');
    var dotIndex := RFind(p, '.');
    if dotIndex > sepIndex && StemBefore(p, sepIndex, dotIndex) then
      assert forall j :: 1 <= j < |p[dotIndex..]| ==> p[dotIndex..][j] == p[dotIndex + j];
      p[dotIndex..]
    else []
  }

  /** The players `play_audio_file` dispatches to. */
  datatype Player = WavPlayer | Mp3Player | OggPlayer

  /** The dispatch table of `play_audio_file`. */
  const ExtensionToPlayer: map<string, Player> :=
    map[".wav" := WavPlayer, ".mp3" := Mp3Player, ".ogg" := OggPlayer]

  /** The extension each player is for, stated on its own. */
  function ExtensionOf(p: Player): string {
    match p
    case WavPlayer => ".wav"
    case Mp3Player => ".mp3"
    case OggPlayer => ".ogg"
  }

  /** The player for a file, by its lower-cased extension; `None` for any
      format the table does not list. */
  function SelectPlayer(uri: string): (r: Option<Player>)
    ensures r.Some? <==> Lower(Extension(uri)) in {".wav", ".mp3", ".ogg"}
    ensures r.Some? ==> ExtensionOf(r.value) == Lower(Extension(uri))
  {
    var ext := Lower(Extension(uri));
    if ext in ExtensionToPlayer then Some(ExtensionToPlayer[ext]) else None
  }

  /** A player is chosen exactly for files whose extension, in any case,
      is the one that player is for. */
  lemma SelectPlayerMatchesExtension(uri: string, p: Player)
    ensures SelectPlayer(uri) == Some(p) <==> Lower(Extension(uri)) == ExtensionOf(p)
  {
  }

  /** A file with none of the three extensions gets no player. */
  lemma SelectPlayerUnsupported(uri: string)
    ensures SelectPlayer(uri).None? <==>
      Lower(Extension(uri)) != ".wav" && Lower(Extension(uri)) != ".mp3" && Lower(Extension(uri)) != ".ogg"
  {
  }

  /** What a corrected `play_audio_file` starts: the chosen player on `uri`. */
  datatype Playback = Playback(player: Player, uri: string)

  /** `play_audio_file` as written: it calls the chosen function with
      `(uri, environment)`, but `play_wav_sync` and `play_mp3_sync` take
      `uri` alone, so for `.wav` and `.mp3` the call raises `TypeError`;
      only `play_ogg` accepts both. */
  function PlayAudioFileAsWritten(uri: string): Outcome<Option<Playback>> {
    match SelectPlayer(uri)
    case None => Returned(None)
    case Some(OggPlayer) => Returned(Some(Playback(OggPlayer, uri)))
    case Some(_) => Raised(TypeError("takes 1 positional argument but 2 were given"))
  }

  /** As written, every `.wav` and `.mp3` file fails to play. */
  lemma AsWrittenFailsForWavAndMp3(uri: string)
    ensures PlayAudioFileAsWritten(uri).Raised? <==>
      Lower(Extension(uri)) == ".wav" || Lower(Extension(uri)) == ".mp3"
  {
  }

  /** A concrete input: `a.wav` raises instead of playing. */
  lemma AsWrittenWavExample()
    ensures PlayAudioFileAsWritten("a.wav") == Raised(TypeError("takes 1 positional argument but 2 were given"))
  {
    assert RFind("a", '/') == -1;
    assert "a"[0] != '.';
    Mp3TargetIsWav("a");
    assert "a" + ".wav" == "a.wav";
  }

  /** `play_audio_file` as evidently intended: the chosen player is started
      on `uri`, for exactly the three supported extensions in any case, and
      nothing is started for any other file. */
  function PlayAudioFile(uri: string): (r: Option<Playback>)
    ensures r.Some? <==> Lower(Extension(uri)) in {".wav", ".mp3", ".ogg"}
    ensures r.Some? ==> r.value.uri == uri && ExtensionOf(r.value.player) == Lower(Extension(uri))
  {
    match SelectPlayer(uri)
    case None => None
    case Some(p) => Some(Playback(p, uri))
  }

  // ---------------------------------------------------------- mp3 to wav

  /** What `play_mp3_sync` does before playing: the converter command line
      (`convert_mp3_to_wav`) and the wav file it then plays. */
  datatype Mp3Plan = Mp3Plan(convertArgv: seq<string>, wavTarget: string)

  /** `play_mp3_sync`: convert `uri` into `uri + ".wav"` with `mpg123 -w`,
      then play that file. */
  function PlayMp3Sync(uri: string): (r: Mp3Plan)
    ensures |r.convertArgv| == 4 && r.convertArgv[0] == "mpg123" && r.convertArgv[1] == "-w"
    ensures r.convertArgv[2] == r.wavTarget && r.convertArgv[3] == uri
    ensures r.wavTarget == uri + ".wav"
  {
    var uriWav := uri + ".wav";
    Mp3Plan(["mpg123", "-w", uriWav, uri], uriWav)
  }

  /** The converted file is one the dispatcher itself would play as wav,
      whenever the mp3's file name is not made of dots alone. */
  lemma Mp3TargetIsWav(uri: string)
    requires StemBefore(uri, RFind(uri, '/'), |uri|)
    ensures Extension(PlayMp3Sync(uri).wavTarget) == ".wav"
    ensures SelectPlayer(PlayMp3Sync(uri).wavTarget) == Some(WavPlayer)
  {
    var t := PlayMp3Sync(uri).wavTarget;
    assert t == uri + ".wav";
    WavTargetExtension(uri);
    WavExtensionSelectsWav(t);
  }

  lemma WavExtensionSelectsWav(u: string)
    requires Extension(u) == ".wav"
    ensures SelectPlayer(u) == Some(WavPlayer)
  {
    LowerWav();
  }

  lemma LowerWav()
    ensures Lower(".wav") == ".wav"
  {
    var l := Lower(".wav");
    assert l[0] == '.' && l[1] == 'w' && l[2] == 'a' && l[3] == 'v';
  }

  lemma WavTargetExtension(uri: string)
    requires StemBefore(uri, RFind(uri, '/'), |uri|)
    ensures Extension(uri + ".wav") == ".wav"
  {
    var p := uri + ".wav";
    WavSuffixSearch(uri);
    StemCarriesOver(uri, ".wav", RFind(uri, '/'));
    assert p[|uri|..] == ".wav";
  }

  /** Text appended after `dot` does not change the stem before it. */
  lemma StemCarriesOver(s: string, t: string, sepIndex: int)
    requires -1 <= sepIndex && StemBefore(s, sepIndex, |s|)
    ensures StemBefore(s + t, sepIndex, |s|)
  {
    var k :| sepIndex + 1 <= k < |s| && s[k] != '.';
    assert (s + t)[k] == s[k];
  }

  /** Where the searches of `splitext` land in `uri + ".wav"`. */
  lemma WavSuffixSearch(uri: string)
    ensures RFind(uri + ".wav", '/') == RFind(uri, '/')
    ensures RFind(uri + ".wav", '.') == |uri|
  {
    WavSpelledOut(uri);
    RFindSnoc(uri, '.', '/');
    RFindSnoc(uri, '.', '.');
    RFindPastLetters(uri + ['.'], '/');
    RFindPastLetters(uri + ['.'], '.');
  }

  lemma WavSpelledOut(uri: string)
    ensures uri + ".wav" == uri + ['.'] + ['w'] + ['a'] + ['v']
  {
  }

  /** The letters `wav` after the dot hold neither a dot nor a slash. */
  lemma RFindPastLetters(s: string, c: char)
    requires c == '.' || c == '/'
    ensures RFind(s + ['w'] + ['a'] + ['v'], c) == RFind(s, c)
  {
    RFindSnoc(s, 'w', c);
    RFindPastTwoLetters(s + ['w'], c);
  }

  lemma RFindPastTwoLetters(s: string, c: char)
    requires c == '.' || c == '/'
    ensures RFind(s + ['a'] + ['v'], c) == RFind(s, c)
  {
    RFindSnoc(s, 'a', c);
    RFindSnoc(s + ['a'], 'v', c);
  }

  // --------------------------------------------------------- environment

  type Env = map<string, string>

  /** The property that lets a phone-role stream duck the player. */
  const PulseProp: string := "PULSE_PROP"
  const MusicRole: string := "media.role=music"

  /** Which of the two environment objects `_get_pulse_environment` returns:
      the process environment, or its copy tagged with the music role. */
  datatype EnvChoice = ProcessEnv | DuckedEnv

  /** The environment the choice stands for. The ducked one is built from
      `importEnv`, the copy of `os.environ` taken when the module was
      imported; the plain one is `processEnv`, the live `os.environ`. */
  function Materialize(choice: EnvChoice, importEnv: Env, processEnv: Env): (env: Env)
    ensures choice == DuckedEnv ==> PulseProp in env && env[PulseProp] == MusicRole
    ensures choice == DuckedEnv ==> forall k :: k != PulseProp ==> (k in env <==> k in importEnv)
    ensures choice == DuckedEnv ==> forall k :: k != PulseProp && k in env ==> env[k] == importEnv[k]
    ensures choice == ProcessEnv ==> env == processEnv
  {
    match choice
    case ProcessEnv => processEnv
    case DuckedEnv => importEnv[PulseProp := MusicRole]
  }

  /** Ducking is configured: a `tts` section that is a dictionary whose
      `pulse_duck` is truthy. */
  predicate DuckingRequested(config: map<string, Value>) {
    "tts" in config && config["tts"].Dict? &&
    Truthy(Get(config["tts"].entries, "pulse_duck", Null))
  }

  /** `_get_pulse_environment`: the ducked environment exactly when ducking
      is configured, the plain one otherwise; a truthy `tts` value that is
      not a dictionary has no `get`, and raises. */
  function PulseEnvironment(config: map<string, Value>): (r: Outcome<EnvChoice>)
    ensures r == Returned(DuckedEnv) <==> DuckingRequested(config)
    ensures r.Raised? <==> "tts" in config && Truthy(config["tts"]) && !config["tts"].Dict?
    ensures r == Returned(ProcessEnv) <==>
      !DuckingRequested(config) && !("tts" in config && Truthy(config["tts"]) && !config["tts"].Dict?)
  {
    var tts := Get(config, "tts", Dict(map[]));
    if !Truthy(tts) then Returned(ProcessEnv)
    else match tts
      case Dict(entries) =>
        if Truthy(Get(entries, "pulse_duck", Null)) then Returned(DuckedEnv) else Returned(ProcessEnv)
      case _ => Raised(AttributeError("object has no attribute 'get'"))
  }

  // ------------------------------------------------------------ playback

  /** The placeholder a configured player command uses for the file. */
  const Placeholder: string := "%1"

  /** The argument vector of `_play_cmd`: the command split on single
      spaces, each element that is exactly the placeholder replaced by
      `uri`; every other element, even one that merely contains the
      placeholder, is kept as it is. */
  function PlayArgv(cmd: string, uri: string): (argv: seq<string>)
    ensures |argv| == |Split(cmd, ' ')|
    ensures forall i :: 0 <= i < |argv| ==>
      argv[i] == (if Split(cmd, ' ')[i] == Placeholder then uri else Split(cmd, ' ')[i])
  {
    var parts := Split(cmd, ' ');
    seq(|parts|, i requires 0 <= i < |parts| => if parts[i] == Placeholder then uri else parts[i])
  }

  /** Substituting the placeholder by itself is the plain split. */
  lemma PlayArgvPlaceholderFixed(cmd: string)
    ensures PlayArgv(cmd, Placeholder) == Split(cmd, ' ')
  {
  }

  /** A command without a placeholder element runs verbatim: rejoining its
      argument vector with spaces gives the command back. */
  lemma PlayArgvWithoutPlaceholder(cmd: string, uri: string)
    requires Placeholder !in Split(cmd, ' ')
    ensures PlayArgv(cmd, uri) == Split(cmd, ' ')
    ensures Join(PlayArgv(cmd, uri), ' ') == cmd
  {
    var parts := Split(cmd, ' ');
    forall i | 0 <= i < |parts|
      ensures PlayArgv(cmd, uri)[i] == parts[i]
    {
      assert parts[i] in parts;
    }
  }

  /** What `_play_cmd` hands to `Popen`. */
  datatype Launch = Launch(argv: seq<string>, env: EnvChoice)

  /** `_play_cmd`: the caller's environment when it is a non-empty mapping
      (`environment or ...` treats `{}` like `None`), otherwise the one
      `_get_pulse_environment` picks, whose failure propagates. */
  function PlayCmd(cmd: string, uri: string, config: map<string, Value>,
                   environment: Option<Env>, importEnv: Env, processEnv: Env): (r: Outcome<(seq<string>, Env)>)
    ensures environment.Some? && |environment.value| > 0 ==>
      r == Returned((PlayArgv(cmd, uri), environment.value))
    ensures !(environment.Some? && |environment.value| > 0) ==>
      (r.Raised? <==> PulseEnvironment(config).Raised?)
    ensures r.Returned? ==> r.value.0 == PlayArgv(cmd, uri)
    ensures !(environment.Some? && |environment.value| > 0) ==>
      forall c :: PulseEnvironment(config) == Returned(c) ==>
        r.Returned? && r.value.1 == Materialize(c, importEnv, processEnv)
    ensures !(environment.Some? && |environment.value| > 0) && DuckingRequested(config) ==>
      r.Returned? && PulseProp in r.value.1 && r.value.1[PulseProp] == MusicRole
  {
    if environment.Some? && |environment.value| > 0 then
      Returned((PlayArgv(cmd, uri), environment.value))
    else
      match PulseEnvironment(config)
      case Raised(e) => Raised(e)
      case Returned(choice) => Returned((PlayArgv(cmd, uri), Materialize(choice, importEnv, processEnv)))
  }

  /** Configuring ducking is the same as handing `_play_cmd` the ducked
      environment directly, whatever the configuration then says. */
  lemma DuckingIsExplicitEnvironment(cmd: string, uri: string, config: map<string, Value>,
                                     other: map<string, Value>, importEnv: Env, processEnv: Env)
    requires DuckingRequested(config)
    ensures PlayCmd(cmd, uri, config, None, importEnv, processEnv)
      == PlayCmd(cmd, uri, other, Some(Materialize(DuckedEnv, importEnv, processEnv)), importEnv, processEnv)
  {
    var ducked := Materialize(DuckedEnv, importEnv, processEnv);
    assert PulseProp in ducked;
  }

  // ----------------------------------------------------------- recording

  /** `record`'s command line for `arecord`: rate and channels first, a
      duration only when it is positive, and the output file last. */
  function RecordArgv(filePath: string, duration: int, rate: int, channels: int): (argv: seq<string>)
    ensures |argv| >= 6
    ensures argv[..5] == ["arecord", "-r", IntToString(rate), "-c", IntToString(channels)]
    ensures (|argv| == 8 && argv[5] == "-d" && argv[6] == IntToString(duration)) <==> duration > 0
    ensures duration <= 0 ==> |argv| == 6
    ensures argv[|argv| - 1] == filePath
  {
    var command := ["arecord", "-r", IntToString(rate), "-c", IntToString(channels)];
    var timed := command + (if duration > 0 then ["-d", IntToString(duration)] else []);
    timed + [filePath]
  }

  /** The recording settings can be read back from the command line. */
  lemma RecordArgvReadsBack(filePath: string, duration: int, rate: int, channels: int)
    ensures var argv := RecordArgv(filePath, duration, rate, channels);
      IsIntLiteral(argv[2]) && ParseInt(argv[2]) == rate &&
      IsIntLiteral(argv[4]) && ParseInt(argv[4]) == channels &&
      (duration > 0 ==> IsIntLiteral(argv[6]) && ParseInt(argv[6]) == duration)
  {
    var argv := RecordArgv(filePath, duration, rate, channels);
    assert argv[2] == argv[..5][2] && argv[4] == argv[..5][4];
    IntToStringRoundTrip(rate);
    IntToStringRoundTrip(channels);
    IntToStringRoundTrip(duration);
  }
}
