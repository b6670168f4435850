/**
 * The settings file behind two caches keyed by path, reader, modification time and size. Other programs replace the file
 * at any moment, also between a stat and the read after it.
 */
module ConfigCache {
  import opened Wrappers

  /** A path, as one file-system module reads it. */
  datatype Source = Source(path: string, reader: nat)

  datatype Key = Key(source: Source, mtime: nat, size: nat)

  datatype Stat = Found(mtime: nat, size: nat) | NotFound | StatError

  /** What a stat says of a file, and its text if it can be read at all. */
  datatype File = File(stat: Stat, content: Option<string>)

  datatype CachedConfig = CachedConfig(key: Key, serialized: string)

  datatype CachedProbe = CachedProbe(key: Key, parseOk: bool)

  /** JSON text, raw and normalized settings, and the codecs between them. */
  datatype Codec<!Raw, !Config> =
    Codec(parse: string -> Option<Raw>, normalize: Raw -> Config, serialize: Config -> string, revive: string -> Config,
          autotuneEnabled: Config -> bool, isObject: Raw -> bool, defaults: Raw)

  /** A result handed to a caller, who may change it. */
  class Settings<Config> {
    var value: Config

    constructor (value: Config)
      ensures this.value == value
    {
      this.value := value;
    }
  }

  // ---- What a reader without a cache answers ----

  predicate Parses<Raw, Config>(codec: Codec<Raw, Config>, content: Option<string>) {
    content.Some? && codec.parse(content.value).Some?
  }

  function Reading<Raw, Config>(codec: Codec<Raw, Config>, content: Option<string>, fallback: Raw): Config {
    codec.normalize(if Parses(codec, content) then codec.parse(content.value).value else fallback)
  }

  /** A file that exists but does not read or parse is off; a missing one has the defaults. */
  predicate EnabledReading<Raw, Config>(codec: Codec<Raw, Config>, file: File) {
    !file.stat.StatError? &&
    (file.stat.Found? ==> Parses(codec, file.content)) &&
    codec.autotuneEnabled(Reading(codec, file.content, codec.defaults))
  }

  /** The file is found under the key. */
  predicate IsKeyOf(file: File, source: Source, key: Option<Key>) {
    file.stat.Found? && key == Some(Key(source, file.stat.mtime, file.stat.size))
  }

  predicate IsRemembered(file: File, source: Source, cache: Option<CachedConfig>) {
    cache.Some? && IsKeyOf(file, source, Some(cache.value.key))
  }

  /** Something is there that is no JSON object. */
  predicate IsDamaged<Raw, Config>(codec: Codec<Raw, Config>, file: File) {
    if Parses(codec, file.content) then !codec.isObject(codec.parse(file.content.value).value)
    else file.content.Some? || !file.stat.NotFound?
  }

  class ConfigCache<Raw(!new), Config> {
    const codec: Codec<Raw, Config>
    /** One text for every key: the premise of both caches. */
    ghost const contentOf: Key -> Option<string>

    var files: map<Source, File>
    var configCache: Option<CachedConfig>
    var probeCache: Option<CachedProbe>
    /** Keys whose file was replaced between a stat and its read. */
    ghost var raced: set<Key>

    ghost predicate FilesMatchKeys()
      reads this`files
    {
      forall source :: source in files ==> CanBecome(source, files[source])
    }

    ghost predicate ConfigCacheIsTrue()
      reads this`configCache, this`raced
    {
      configCache.Some? ==>
        (exists raw :: configCache.value.serialized == codec.serialize(codec.normalize(raw))) &&
        (configCache.value.key !in raced ==>
          var content := contentOf(configCache.value.key);
          Parses(codec, content) && configCache.value.serialized == codec.serialize(codec.normalize(codec.parse(content.value).value)))
    }

    /** Only a good answer vouches for the text: a bad one may come from a read that failed. */
    ghost predicate ProbeCacheIsTrue()
      reads this`probeCache, this`raced
    {
      probeCache.Some? && probeCache.value.parseOk && probeCache.value.key !in raced ==>
        Parses(codec, contentOf(probeCache.value.key))
    }

    ghost predicate Valid()
      reads this
    {
      (forall raw :: codec.revive(codec.serialize(codec.normalize(raw))) == codec.normalize(raw)) &&
      FilesMatchKeys() && ConfigCacheIsTrue() && ProbeCacheIsTrue()
    }

    constructor (codec: Codec<Raw, Config>, ghost contentOf: Key -> Option<string>)
      requires forall raw :: codec.revive(codec.serialize(codec.normalize(raw))) == codec.normalize(raw)
      ensures Valid() && this.codec == codec && this.contentOf == contentOf && files == map[] && configCache.None? && probeCache.None? && raced == {}
    {
      this.codec, this.contentOf := codec, contentOf;
      files, configCache, probeCache, raced := map[], None, None, {};
    }

    function FileAt(source: Source): File
      reads this`files
    {
      if source in files then files[source] else File(NotFound, None)
    }

    /** The premise on other programs: a key names one text. */
    ghost predicate CanBecome(source: Source, file: File) {
      file.stat.Found? ==> contentOf(Key(source, file.stat.mtime, file.stat.size)) == file.content
    }

    /** The config cache answers for the file as it is now. */
    predicate IsCached(source: Source)
      reads this`files, this`configCache
    {
      IsKeyOf(FileAt(source), source, if configCache.Some? then Some(configCache.value.key) else None)
    }

    predicate IsProbed(source: Source)
      reads this`files, this`probeCache
    {
      IsKeyOf(FileAt(source), source, if probeCache.Some? then Some(probeCache.value.key) else None)
    }

    /** The key under which the file is found was lost once between a stat and its read, and has come back. */
    ghost predicate HasComeBack(source: Source)
      reads this`files, this`raced
    {
      exists key :: key in raced && IsKeyOf(FileAt(source), source, Some(key))
    }

    /** The key that is lost when `edit` replaces the file after its stat. */
    ghost function Lost(source: Source, edit: Option<File>): set<Key>
      reads this`files
    {
      var stat := FileAt(source).stat;
      if stat.Found? && edit.Some? && edit.value.stat != stat then {Key(source, stat.mtime, stat.size)} else {}
    }

    /** Another program replaces a file. */
    method Edit(source: Source, file: File)
      requires Valid() && CanBecome(source, file)
      modifies this`files
      ensures Valid() && files == old(files)[source := file]
    {
      files := files[source := file];
    }

    /** Another program replaces the file that was just found under `key`, before it is read. */
    method EditBeforeRead(key: Key, edit: Option<File>)
      requires Valid() && FileAt(key.source).stat == Found(key.mtime, key.size)
      requires edit.Some? ==> CanBecome(key.source, edit.value)
      modifies this`files, this`raced
      ensures Valid()
      ensures files == if edit.Some? then old(files)[key.source := edit.value] else old(files)
      ensures raced == old(raced) + old(Lost(key.source, edit))
      ensures key in raced || contentOf(key) == FileAt(key.source).content
    {
      if edit.Some? {
        files := files[key.source := edit.value];
        if edit.value.stat != Found(key.mtime, key.size) {
          raced := raced + {key};
        }
      }
    }

    /**
     * `edit` may replace the file between the stat and the read; `readFails` makes that read fail. The answer is that of a
     * fresh read and parse, in a new object, unless it is served from the cache under a key that has come back.
     */
    method ReadAlphaclawConfig(source: Source, fallback: Raw, edit: Option<File>, readFails: bool) returns (r: Settings<Config>)
      requires Valid() && (edit.Some? ==> CanBecome(source, edit.value))
      modifies this`files, this`raced, this`configCache
      ensures Valid() && fresh(r) && raced == old(raced) + if old(IsCached(source)) then {} else old(Lost(source, edit))
      ensures files == if old(IsCached(source)) || edit.None? || !old(FileAt(source)).stat.Found? then old(files) else old(files)[source := edit.value]
      ensures !old(IsCached(source)) ==>
        r.value == Reading(codec, if readFails then None else FileAt(source).content, fallback)
      ensures old(IsCached(source)) ==> r.value == codec.revive(old(configCache).value.serialized)
      ensures old(IsCached(source)) && !old(HasComeBack(source)) ==>
        r.value == Reading(codec, FileAt(source).content, fallback) && Parses(codec, FileAt(source).content)
      ensures !old(FileAt(source)).stat.Found? ==> configCache == None
      ensures old(IsCached(source)) || (old(FileAt(source)).stat.Found? && (readFails || !Parses(codec, FileAt(source).content))) ==>
        configCache == old(configCache)
      ensures old(FileAt(source)).stat.Found? && !old(IsCached(source)) && !readFails && Parses(codec, FileAt(source).content) ==>
        var stat := old(FileAt(source)).stat;
        configCache == Some(CachedConfig(Key(source, stat.mtime, stat.size), codec.serialize(Reading(codec, FileAt(source).content, fallback))))
    {
      var stat := FileAt(source).stat;
      if !stat.Found? {
        configCache := None;
        var content := if readFails then None else FileAt(source).content;
        r := new Settings(Reading(codec, content, fallback));
        return;
      }
      var key := Key(source, stat.mtime, stat.size);
      if configCache.Some? && configCache.value.key == key {
        assert IsKeyOf(FileAt(source), source, Some(key));
        r := new Settings(codec.revive(configCache.value.serialized));
        return;
      }
      EditBeforeRead(key, edit);
      var content := if readFails then None else FileAt(source).content;
      if content.Some? && codec.parse(content.value).Some? {
        var config := codec.normalize(codec.parse(content.value).value);
        configCache := Some(CachedConfig(key, codec.serialize(config)));
        r := new Settings(config);
      } else {
        r := new Settings(codec.normalize(fallback));
      }
    }

    /** The file after the probe: `edit` replaces it where the probe reads it. */
    function SeenAfter(source: Source, edit: Option<File>): File
      reads this`files, this`probeCache
    {
      if edit.Some? && FileAt(source).stat.Found? && !IsProbed(source) then edit.value else FileAt(source)
    }

    /** What the memoized probe answers: from its cache under this key, or from a read that may fail. */
    predicate ProbeAnswer(source: Source, edit: Option<File>, readFails: bool)
      reads this`files, this`probeCache
    {
      match FileAt(source).stat
      case NotFound => true
      case StatError => false
      case Found(_, _) =>
        if IsProbed(source) then probeCache.value.parseOk else !readFails && Parses(codec, SeenAfter(source, edit).content)
    }

    function ProbeAfter(source: Source, edit: Option<File>, readFails: bool): Option<CachedProbe>
      reads this`files, this`probeCache
    {
      var stat := FileAt(source).stat;
      if stat.Found? && !IsProbed(source) then Some(CachedProbe(Key(source, stat.mtime, stat.size), ProbeAnswer(source, edit, readFails)))
      else probeCache
    }

    /** The fail-closed probe. `edit` may replace the file between its stat and its read. */
    method Probe(source: Source, edit: Option<File>, readFails: bool) returns (ok: bool)
      requires Valid() && (edit.Some? ==> CanBecome(source, edit.value))
      modifies this`files, this`raced, this`probeCache
      ensures Valid() && ok == old(ProbeAnswer(source, edit, readFails)) && probeCache == old(ProbeAfter(source, edit, readFails))
      ensures raced == old(raced) + if old(IsProbed(source)) then {} else old(Lost(source, edit))
      ensures FileAt(source) == old(SeenAfter(source, edit))
      ensures files == if old(SeenAfter(source, edit)) == old(FileAt(source)) then old(files) else old(files)[source := old(SeenAfter(source, edit))]
    {
      var stat := FileAt(source).stat;
      if !stat.Found? {
        return stat == NotFound;
      }
      var key := Key(source, stat.mtime, stat.size);
      if probeCache.Some? && probeCache.value.key == key {
        return probeCache.value.parseOk;
      }
      EditBeforeRead(key, edit);
      ok := !readFails && FileAt(source).content.Some? && codec.parse(FileAt(source).content.value).Some?;
      probeCache := Some(CachedProbe(key, ok));
    }

    /**
     * When the undisturbed probe is wrong about a file that is there: it refuses a file that parses exactly when its read
     * fails or a refusal is cached under the file's key, and it passes one that does not parse exactly when the key has come
     * back with a good answer cached.
     */
    lemma ProbeIsWrongExactlyWhen(source: Source, readFails: bool)
      requires Valid() && FileAt(source).stat.Found?
      ensures Parses(codec, FileAt(source).content) ==>
        (!ProbeAnswer(source, None, readFails) <==> if IsProbed(source) then !probeCache.value.parseOk else readFails)
      ensures !Parses(codec, FileAt(source).content) ==>
        (ProbeAnswer(source, None, readFails) <==> IsProbed(source) && probeCache.value.parseOk) &&
        (ProbeAnswer(source, None, readFails) ==> HasComeBack(source))
    {
      if IsProbed(source) {
        assert IsKeyOf(FileAt(source), source, Some(probeCache.value.key));
      }
    }

    /**
     * The probe, and then the settings. `inProbe` may replace the file between the probe's stat and read, `between` after the
     * probe, and either read may fail; the answer is stated for all of it.
     */
    method ReadAutotuneEnabled(source: Source, inProbe: Option<File>, probeFails: bool, between: Option<File>, readFails: bool)
      returns (enabled: bool)
      requires Valid() && (inProbe.Some? ==> CanBecome(source, inProbe.value)) && (between.Some? ==> CanBecome(source, between.value))
      modifies this`files, this`raced, this`probeCache, this`configCache
      ensures Valid() && probeCache == old(ProbeAfter(source, inProbe, probeFails))
      ensures raced == old(raced) + if old(IsProbed(source)) then {} else old(Lost(source, inProbe))
      ensures
        var passed, seen := old(ProbeAnswer(source, inProbe, probeFails)), old(SeenAfter(source, inProbe));
        FileAt(source) == (if passed && between.Some? then between.value else seen) &&
        enabled == (passed && codec.autotuneEnabled(AnswerFor(FileAt(source), source, old(configCache), codec.defaults, readFails)))
    {
      var ok := Probe(source, inProbe, probeFails);
      if !ok {
        return false;
      }
      if between.Some? {
        Edit(source, between.value);
      }
      var config := ReadAlphaclawConfig(source, codec.defaults, None, readFails);
      enabled := codec.autotuneEnabled(config.value);
    }

    /** What a read of such a file answers: from the cache under the file's key, or from a read that may fail. */
    function AnswerFor(file: File, source: Source, cache: Option<CachedConfig>, fallback: Raw, readFails: bool): Config {
      if IsRemembered(file, source, cache) then codec.revive(cache.value.serialized)
      else Reading(codec, if readFails then None else file.content, fallback)
    }

    function Answer(source: Source, fallback: Raw, readFails: bool): Config
      reads this`files, this`configCache
    {
      AnswerFor(FileAt(source), source, configCache, fallback, readFails)
    }

    /** What the whole call answers when nobody replaces the file meanwhile. */
    predicate EnabledAnswer(source: Source, probeFails: bool, readFails: bool)
      reads this`files, this`probeCache, this`configCache
    {
      ProbeAnswer(source, None, probeFails) && codec.autotuneEnabled(Answer(source, codec.defaults, readFails))
    }

    /**
     * Under a key that has not come back, autotune is off over a file that has it on exactly when the probe refuses it, or
     * the second read fails over defaults that are off; and it is on over a file that has it off, or does not parse, exactly
     * when the second read fails, uncached, on a file that parses, over defaults that are on.
     */
    lemma AnswerIsWrongExactlyWhen(source: Source, probeFails: bool, readFails: bool)
      requires Valid() && !HasComeBack(source)
      ensures
        var file := FileAt(source);
        var fallsBack := readFails && !IsCached(source);
        var defaultsOn := codec.autotuneEnabled(codec.normalize(codec.defaults));
        (EnabledReading(codec, file) ==>
          (!EnabledAnswer(source, probeFails, readFails) <==>
            !ProbeAnswer(source, None, probeFails) || (fallsBack && !defaultsOn))) &&
        (!EnabledReading(codec, file) ==>
          (EnabledAnswer(source, probeFails, readFails) <==>
            ProbeAnswer(source, None, probeFails) && fallsBack && defaultsOn))
    {
      if FileAt(source).stat.Found? {
        ProbeIsWrongExactlyWhen(source, probeFails);
      }
      if IsCached(source) {
        CachedAnswerIsTheFiles(source);
      }
    }

    lemma CachedAnswerIsTheFiles(source: Source)
      requires Valid() && !HasComeBack(source) && IsCached(source)
      ensures forall fallback :: Answer(source, fallback, false) == Reading(codec, FileAt(source).content, fallback)
    {
      assert IsKeyOf(FileAt(source), source, Some(configCache.value.key));
    }

    /** `mtime` is what the atomic write leaves; a write that fails leaves the file, and the cache, alone. */
    method WriteAlphaclawConfig(source: Source, config: Raw, mtime: nat, fails: bool) returns (written: Option<Config>)
      requires Valid()
      requires var text := codec.serialize(codec.normalize(config)); CanBecome(source, File(Found(mtime, |text|), Some(text)))
      modifies this`files, this`configCache
      ensures Valid()
      ensures written == if fails then None else Some(codec.normalize(config))
      ensures fails ==> files == old(files) && configCache == old(configCache)
      ensures !fails ==>
        var text := codec.serialize(codec.normalize(config));
        files == old(files)[source := File(Found(mtime, |text|), Some(text))] && configCache.None?
    {
      if fails {
        return None;
      }
      var normalized := codec.normalize(config);
      var text := codec.serialize(normalized);
      files := files[source := File(Found(mtime, |text|), Some(text))];
      configCache := None;
      written := Some(normalized);
    }

    /** A caller changes what it was given; the next read of the same file answers as the first did. */
    method ReadAfterCallerChanges(source: Source, fallback: Raw, change: Config) returns (second: Settings<Config>)
      requires Valid()
      modifies this`files, this`raced, this`configCache
      ensures Valid() && files == old(files) && fresh(second)
      ensures second.value == old(Answer(source, fallback, false))
    {
      var first := ReadAlphaclawConfig(source, fallback, None, false);
      first.value := change;
      second := ReadAlphaclawConfig(source, fallback, None, false);
    }

    /** What an update starts from: a strict one reads the file itself, a lax one what a display read answers. */
    function StartsFrom(source: Source, strict: bool): Config
      reads this`files, this`configCache
    {
      if strict then Reading(codec, FileAt(source).content, codec.defaults) else Answer(source, codec.defaults, false)
    }

    /** Under a key that has not come back both start from what the file holds, or the defaults where it does not parse. */
    lemma UpdateStartsFromTheFile(source: Source, strict: bool)
      requires Valid() && !HasComeBack(source)
      ensures StartsFrom(source, strict) == Reading(codec, FileAt(source).content, codec.defaults)
    {
      if IsCached(source) {
        CachedAnswerIsTheFiles(source);
      }
    }

    /**
     * The locked read-modify-write: the file becomes the change of what it starts from. A strict update refuses exactly a
     * damaged file; a lax one starts again from the defaults. A write that fails leaves the file alone.
     */
    method UpdateAlphaclawConfig(source: Source, mutate: Config -> Raw, strict: bool, mtime: nat, fails: bool)
      returns (written: Option<Config>, refused: bool)
      requires Valid()
      requires var text := codec.serialize(codec.normalize(mutate(StartsFrom(source, strict)))); CanBecome(source, File(Found(mtime, |text|), Some(text)))
      modifies this`files, this`raced, this`configCache
      ensures Valid()
      ensures refused <==> strict && IsDamaged(codec, old(FileAt(source)))
      ensures written.None? <==> refused || fails
      ensures written.None? ==> files == old(files)
      ensures written.Some? ==>
        written.value == codec.normalize(mutate(old(StartsFrom(source, strict)))) && configCache.None? &&
        FileAt(source) == File(Found(mtime, |codec.serialize(written.value)|), Some(codec.serialize(written.value)))
    {
      var current: Config;
      if strict {
        var file := FileAt(source);
        if file.content.None? && file.stat == NotFound {
          current := codec.normalize(codec.defaults);
        } else if file.content.None? || codec.parse(file.content.value).None? || !codec.isObject(codec.parse(file.content.value).value) {
          return None, true;
        } else {
          current := codec.normalize(codec.parse(file.content.value).value);
        }
      } else {
        var settings := ReadAlphaclawConfig(source, codec.defaults, None, false);
        current := settings.value;
      }
      refused := false;
      written := WriteAlphaclawConfig(source, mutate(current), mtime, fails);
    }
  }

  // ---- Where the answers are wrong ----

  /** Settings that are nothing but autotune's switch, on by default. */
  function Switch(): Codec<bool, bool> {
    Codec(text => if text == "on" then Some(true) else if text == "off" then Some(false) else None,
          raw => raw, config => if config then "on" else "off", text => text == "on", config => config, raw => true, true)
  }

  /** A world in which files of one byte are on, of two are off, and others are damaged. */
  function TextOf(key: Key): Option<string> {
    Some(if key.size == 1 then "on" else if key.size == 2 then "off" else "{")
  }

  function SampleFile(size: nat): File {
    File(Found(0, size), TextOf(Key(Source("", 0), 0, size)))
  }

  method SampleCache(size: nat) returns (cache: ConfigCache<bool, bool>)
    ensures fresh(cache) && cache.Valid() && cache.codec == Switch() && cache.contentOf == TextOf
    ensures cache.files == map[Source("", 0) := SampleFile(size)] && cache.configCache.None? && cache.probeCache.None? && cache.raced == {}
  {
    cache := new ConfigCache(Switch(), TextOf);
    cache.files := map[Source("", 0) := SampleFile(size)];
  }

  /** One failed read keeps autotune off over a file that has it on, although the next reads work. */
  method FailedReadSticks() returns (cache: ConfigCache<bool, bool>, second: bool)
    ensures fresh(cache) && EnabledReading(cache.codec, cache.FileAt(Source("", 0))) && !second
  {
    cache := SampleCache(1);
    assert cache.FileAt(Source("", 0)) == SampleFile(1);
    var first := cache.ReadAutotuneEnabled(Source("", 0), None, true, None, false);
    second := cache.ReadAutotuneEnabled(Source("", 0), None, false, None, false);
  }

  /** A settings read that fails after a good probe turns autotune on over an operator's `false`. */
  method SecondReadFails() returns (cache: ConfigCache<bool, bool>, enabled: bool)
    ensures fresh(cache) && !EnabledReading(cache.codec, cache.FileAt(Source("", 0))) && enabled
  {
    cache := SampleCache(2);
    assert cache.FileAt(Source("", 0)) == SampleFile(2);
    enabled := cache.ReadAutotuneEnabled(Source("", 0), None, false, None, true);
  }

  /** So does a file that is damaged between the probe and that read. */
  method DamagedInBetween() returns (cache: ConfigCache<bool, bool>, enabled: bool)
    ensures fresh(cache) && !EnabledReading(cache.codec, cache.FileAt(Source("", 0))) && enabled
  {
    cache := SampleCache(2);
    assert cache.FileAt(Source("", 0)) == SampleFile(2);
    enabled := cache.ReadAutotuneEnabled(Source("", 0), None, false, Some(SampleFile(3)), false);
    assert cache.FileAt(Source("", 0)) == SampleFile(3);
  }

  /** A file replaced between its stat and its read, and then put back under its old key, is answered with the other text. */
  method LostKeyComesBack() returns (cache: ConfigCache<bool, bool>, answer: Settings<bool>)
    ensures fresh(cache) && cache.FileAt(Source("", 0)) == SampleFile(1) && !answer.value
  {
    cache := SampleCache(1);
    assert cache.FileAt(Source("", 0)) == SampleFile(1);
    var first := cache.ReadAlphaclawConfig(Source("", 0), true, Some(SampleFile(2)), false);
    assert cache.FileAt(Source("", 0)) == SampleFile(2);
    cache.Edit(Source("", 0), SampleFile(1));
    answer := cache.ReadAlphaclawConfig(Source("", 0), true, None, false);
  }
}
