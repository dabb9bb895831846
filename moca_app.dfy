/**
 * MocaApp.java: the application object.  At start-up it creates the
 * shared bitmap cache and switches to the locale stored in the "locale"
 * preference when that differs from the current one; it reapplies a
 * custom locale on every configuration change, and trims the cache when
 * memory runs low.  Locale.setDefault's JVM-wide default and the
 * resources' configuration are fields of the app here.
 */
module Application {
  import opened JavaLang
  import opened MemoryCache

  /** java.util.Locale as getLanguage and getCountry see it. */
  datatype Locale = Locale(language: string, country: string)

  const SETTINGS_LOCALE: string := "locale"
  const LOCALE_SYSTEM: string := "SYSTEM"

  /**
   * split("_", 2) on the preference, then langCode[0] and, when there
   * are two parts, langCode[1], else "": the language runs up to the
   * first '_' and the country is everything after it.
   */
  function SplitLocale(s: string): (r: (string, string))
    ensures '_' !in r.0
    ensures '_' in s ==> s == r.0 + "_" + r.1
    ensures '_' !in s ==> r == (s, "")
  {
    if |s| == 0 then ("", "")
    else if s[0] == '_' then ("", s[1..])
    else
      var rest := SplitLocale(s[1..]);
      assert s == [s[0]] + s[1..];
      ([s[0]] + rest.0, rest.1)
  }

  /** Joining a language without '_' to any country and splitting again gives both back. */
  lemma {:induction false} SplitJoin(language: string, country: string)
    requires '_' !in language
    ensures SplitLocale(language + "_" + country) == (language, country)
  {
    var s := language + "_" + country;
    if |language| > 0 {
      assert s[0] == language[0] && s[1..] == language[1..] + "_" + country;
      SplitJoin(language[1..], country);
      assert [language[0]] + language[1..] == language;
    } else {
      assert s[1..] == country;
    }
  }

  /** The split keeps the country's own underscores: only the first '_' separates. */
  lemma SplitKeepsLaterUnderscores(language: string, country: string)
    requires '_' !in language && '_' in country
    ensures SplitLocale(language + "_" + country).1 == country
  {
    SplitJoin(language, country);
  }

  /**
   * shouldSwitchLocale: never for "SYSTEM"; otherwise exactly when the
   * requested language or country differs from the current locale's.
   */
  function ShouldSwitchLocale(current: Locale, language: string, country: string): (r: bool)
    ensures language == LOCALE_SYSTEM ==> !r
    ensures language != LOCALE_SYSTEM ==> (r <==> current != Locale(language, country))
  {
    LOCALE_SYSTEM != language && (language != current.language || country != current.country)
  }

  /** The default preference, and a locale already in effect, never cause a switch. */
  lemma NoSwitchWhenSettled(current: Locale)
    ensures !ShouldSwitchLocale(current, SplitLocale(LOCALE_SYSTEM).0, SplitLocale(LOCALE_SYSTEM).1)
    ensures !ShouldSwitchLocale(current, current.language, current.country)
  {
    assert '_' !in LOCALE_SYSTEM;
  }

  /** android.content.res.Configuration, of which only the locale is read or written. */
  class Configuration {
    var locale: Locale

    constructor(locale: Locale)
      ensures this.locale == locale
    {
      this.locale := locale;
    }
  }

  class MocaApp {
    /** mLocale: the custom locale, null while the system one is used. */
    var customLocale: Option<Locale>
    /** mBitmapCache: the global L1 bitmap cache, created in onCreate. */
    var bitmapCache: BitmapLruCache?
    /** Locale.getDefault(). */
    var defaultLocale: Locale
    /** The locale of the base context's resources, set by updateConfiguration. */
    var resourcesLocale: Locale

    /** The application object as the framework constructs it, before onCreate. */
    constructor(systemLocale: Locale)
      ensures customLocale.None? && bitmapCache == null
      ensures defaultLocale == systemLocale && resourcesLocale == systemLocale
    {
      customLocale := None;
      bitmapCache := null;
      defaultLocale := systemLocale;
      resourcesLocale := systemLocale;
    }

    /** changeLocale: the custom locale goes into the configuration, the JVM default and the resources. */
    method ChangeLocale(config: Configuration)
      requires customLocale.Some?
      modifies this, config
      ensures customLocale == old(customLocale) && bitmapCache == old(bitmapCache)
      ensures config.locale == defaultLocale == resourcesLocale == customLocale.value
    {
      config.locale := customLocale.value;
      defaultLocale := customLocale.value;
      resourcesLocale := config.locale;
    }

    /**
     * onCreate: a fresh cache of the Context constructor's capacity, then
     * the "locale" preference (absent meaning "SYSTEM") split and
     * compared with the configuration's locale, switching only when
     * shouldSwitchLocale says so.
     */
    method OnCreate(preference: Option<string>, config: Configuration, heapMegabytes: nat)
      modifies this, config
      ensures bitmapCache != null && fresh(bitmapCache) && bitmapCache.Valid()
      ensures bitmapCache.maxSize == CacheCapacity(heapMegabytes, DEFAULT_CACHE_SIZE) && bitmapCache.entries == map[]
      ensures var parts := SplitLocale(if preference.Some? then preference.value else LOCALE_SYSTEM);
              if ShouldSwitchLocale(old(config.locale), parts.0, parts.1) then
                customLocale == Some(Locale(parts.0, parts.1))
                && config.locale == defaultLocale == resourcesLocale == Locale(parts.0, parts.1)
              else
                customLocale == old(customLocale) && config.locale == old(config.locale)
                && defaultLocale == old(defaultLocale) && resourcesLocale == old(resourcesLocale)
    {
      bitmapCache := new BitmapLruCache(CacheCapacity(heapMegabytes, DEFAULT_CACHE_SIZE));
      var setting := if preference.Some? then preference.value else LOCALE_SYSTEM;
      var langCode := SplitLocale(setting);
      var language := langCode.0;
      var country := langCode.1;
      if ShouldSwitchLocale(config.locale, language, country) {
        customLocale := Some(Locale(language, country));
        ChangeLocale(config);
      }
    }

    /** onConfigurationChanged: a custom locale is put back into every new configuration. */
    method OnConfigurationChanged(newConfig: Configuration)
      modifies this, newConfig
      ensures customLocale == old(customLocale) && bitmapCache == old(bitmapCache)
      ensures customLocale.Some? ==> newConfig.locale == defaultLocale == resourcesLocale == customLocale.value
      ensures customLocale.None? ==>
                newConfig.locale == old(newConfig.locale) && defaultLocale == old(defaultLocale)
                && resourcesLocale == old(resourcesLocale)
    {
      if customLocale.Some? {
        ChangeLocale(newConfig);
      }
    }

    /**
     * onLowMemory: one trimMemory on the shared cache, which keeps exactly
     * the entries some view still shows; before onCreate the field is
     * null and the call throws NullPointerException.
     */
    method OnLowMemory() returns (r: Outcome<Exception>)
      requires bitmapCache != null ==> bitmapCache.Valid()
      modifies if bitmapCache == null then {} else {bitmapCache}
      modifies if bitmapCache == null then {} else bitmapCache.entries.Values
      ensures bitmapCache == null <==> r == Fail(NullPointer)
      ensures bitmapCache != null ==>
                bitmapCache.Valid()
                && (forall k :: k in bitmapCache.entries <==>
                                k in old(bitmapCache.entries) && old(bitmapCache.entries[k].imageViewRefCount) > 0)
                && (forall k :: k in bitmapCache.entries ==> bitmapCache.entries[k] == old(bitmapCache.entries[k]))
                && bitmapCache.order == Keep(old(bitmapCache.order), bitmapCache.entries.Keys)
    {
      var cache := bitmapCache;
      if cache == null {
        return Fail(NullPointer);
      }
      cache.TrimMemory();
      return Pass;
    }
  }
}
