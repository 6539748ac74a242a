/** `STTFactory.create`: choose the STT backend named by the configuration,
    from the built-in table first and the plugin loader second, and fall
    back to the default `mycroft` backend when that fails. */
module Factory {
  import opened Outcomes
  import opened Config

  /** The classes of the built-in table, and classes a plugin provides. */
  datatype BackendClass =
    | MycroftSTT
    | GoogleSTT
    | GoogleCloudSTT
    | GoogleCloudStreamingSTT
    | WITSTT
    | IBMSTT
    | KaldiSTT
    | BingSTT
    | GoVivaceSTT
    | HoundifySTT
    | DeepSpeechServerSTT
    | DeepSpeechStreamServerSTT
    | MycroftDeepSpeechSTT
    | YandexSTT
    | BaiduSTT
    | MicrosoftSTT
    | Plugin(name: string)

  /** The module used when the configuration names none, and the one the
      factory falls back to. */
  const DefaultModule: string := "mycroft"

  /** The built-in table `STTFactory.CLASSES`. */
  const Classes: map<string, BackendClass> := map[
    "mycroft" := MycroftSTT,
    "google" := GoogleSTT,
    "google_cloud" := GoogleCloudSTT,
    "google_cloud_streaming" := GoogleCloudStreamingSTT,
    "wit" := WITSTT,
    "ibm" := IBMSTT,
    "kaldi" := KaldiSTT,
    "bing" := BingSTT,
    "govivace" := GoVivaceSTT,
    "houndify" := HoundifySTT,
    "deepspeech_server" := DeepSpeechServerSTT,
    "deepspeech_stream_server" := DeepSpeechStreamServerSTT,
    "mycroft_deepspeech" := MycroftDeepSpeechSTT,
    "yandex" := YandexSTT,
    "baidu" := BaiduSTT,
    "microsoft" := MicrosoftSTT
  ]

  /** A constructed backend: its class and the instance the constructor built. */
  datatype Backend<I> = Backend(cls: BackendClass, instance: I)

  /** `config.get("module", "mycroft")` on the `stt` section. */
  function ModuleValue(stt: map<string, Value>): Value {
    Get(stt, "module", Str(DefaultModule))
  }

  /** Class resolution: the built-in table when it has the name, and only
      otherwise the plugin loader (whose failures are its outcome). */
  function Lookup(name: string, classes: map<string, BackendClass>,
                  loadPlugin: string -> Outcome<BackendClass>): (r: Outcome<BackendClass>)
    ensures name in classes ==> r == Returned(classes[name])
    ensures name !in classes ==> r == loadPlugin(name)
  {
    if name in classes then Returned(classes[name]) else loadPlugin(name)
  }

  /** `clazz()`: run the constructor of a resolved class. */
  function Instantiate<I>(cls: Outcome<BackendClass>, construct: BackendClass -> Outcome<I>): Outcome<Backend<I>> {
    match cls
    case Raised(e) => Raised(e)
    case Returned(c) =>
      match construct(c)
      case Raised(e) => Raised(e)
      case Returned(instance) => Returned(Backend(c, instance))
  }

  /** The body of the `try`: resolve the configured module and construct it. */
  function Attempt<I>(name: string, classes: map<string, BackendClass>,
                      loadPlugin: string -> Outcome<BackendClass>,
                      construct: BackendClass -> Outcome<I>): Outcome<Backend<I>> {
    Instantiate(Lookup(name, classes, loadPlugin), construct)
  }

  /** The handler's `MycroftSTT()`, outside any `try`. */
  function Fallback<I>(construct: BackendClass -> Outcome<I>): Outcome<Backend<I>> {
    Instantiate(Returned(MycroftSTT), construct)
  }

  /** `STTFactory.create` over the `stt` configuration section, a class
      table, the plugin loader and the constructors. The configured backend
      is used when it resolves and constructs; when it fails, any module
      other than `mycroft` degrades to a freshly built `MycroftSTT`, whose
      own failure propagates; when `mycroft` itself fails, that original
      exception propagates, with no second fallback. A `module` that is not
      a string makes the log concatenation raise inside the `try`, and is
      not `mycroft`, so it falls back too. */
  function Create<I>(stt: map<string, Value>, classes: map<string, BackendClass>,
                     loadPlugin: string -> Outcome<BackendClass>,
                     construct: BackendClass -> Outcome<I>): (r: Outcome<Backend<I>>)
    ensures r.Returned? ==> construct(r.value.cls) == Returned(r.value.instance)
    ensures r.Returned? ==>
      r.value.cls == MycroftSTT ||
      (ModuleValue(stt).Str? && Lookup(ModuleValue(stt).s, classes, loadPlugin) == Returned(r.value.cls))
    ensures ModuleValue(stt).Str? && Attempt(ModuleValue(stt).s, classes, loadPlugin, construct).Returned? ==>
      r == Attempt(ModuleValue(stt).s, classes, loadPlugin, construct)
    ensures ModuleValue(stt) != Str(DefaultModule) &&
            !(ModuleValue(stt).Str? && Attempt(ModuleValue(stt).s, classes, loadPlugin, construct).Returned?) ==>
      r == Fallback(construct)
    ensures ModuleValue(stt) == Str(DefaultModule) ==>
      r == Attempt(DefaultModule, classes, loadPlugin, construct)
    ensures r.Raised? ==>
      r == Fallback(construct) ||
      (ModuleValue(stt) == Str(DefaultModule) && r == Attempt(DefaultModule, classes, loadPlugin, construct))
  {
    match ModuleValue(stt)
    case Str(name) =>
      var attempt := Attempt(name, classes, loadPlugin, construct);
      if attempt.Returned? then attempt
      else if name != DefaultModule then Fallback(construct)
      else attempt
    case _ => Fallback(construct)
  }

  /** With the built-in table, the factory only raises when `MycroftSTT`
      itself cannot be constructed. */
  lemma CreateFailsOnlyWithDefault<I>(stt: map<string, Value>,
                                      loadPlugin: string -> Outcome<BackendClass>,
                                      construct: BackendClass -> Outcome<I>)
    ensures Create(stt, Classes, loadPlugin, construct).Raised? ==> construct(MycroftSTT).Raised?
  {
    assert DefaultModule in Classes && Classes[DefaultModule] == MycroftSTT;
  }

  /** Configuring the default module and having it fail raises its own
      error: there is no further fallback. */
  lemma DefaultFailureIsFatal<I>(stt: map<string, Value>, e: Exception,
                                 loadPlugin: string -> Outcome<BackendClass>,
                                 construct: BackendClass -> Outcome<I>)
    requires ModuleValue(stt) == Str(DefaultModule)
    requires construct(MycroftSTT) == Raised(e)
    ensures Create(stt, Classes, loadPlugin, construct) == Raised(e)
  {
    assert DefaultModule in Classes && Classes[DefaultModule] == MycroftSTT;
  }

  /** A module name neither built in nor loadable yields the default
      backend (when that one constructs). */
  lemma UnknownModuleFallsBack<I>(stt: map<string, Value>, name: string, e: Exception, instance: I,
                                  loadPlugin: string -> Outcome<BackendClass>,
                                  construct: BackendClass -> Outcome<I>)
    requires ModuleValue(stt) == Str(name) && name !in Classes
    requires loadPlugin(name) == Raised(e)
    requires construct(MycroftSTT) == Returned(instance)
    ensures Create(stt, Classes, loadPlugin, construct) == Returned(Backend(MycroftSTT, instance))
  {
    assert name != DefaultModule;
  }

  /** A name of the built-in table never consults the plugin loader. */
  lemma BuiltinShadowsPlugins<I>(stt: map<string, Value>,
                                 loadPlugin1: string -> Outcome<BackendClass>,
                                 loadPlugin2: string -> Outcome<BackendClass>,
                                 construct: BackendClass -> Outcome<I>)
    requires ModuleValue(stt).Str? && ModuleValue(stt).s in Classes
    ensures Create(stt, Classes, loadPlugin1, construct) == Create(stt, Classes, loadPlugin2, construct)
  {
  }

  /** No `module` key behaves exactly as `"module": "mycroft"`. */
  lemma MissingModuleIsDefault<I>(stt: map<string, Value>,
                                  loadPlugin: string -> Outcome<BackendClass>,
                                  construct: BackendClass -> Outcome<I>)
    requires "module" !in stt
    ensures Create(stt, Classes, loadPlugin, construct)
              == Create(map["module" := Str(DefaultModule)], Classes, loadPlugin, construct)
  {
  }
}
