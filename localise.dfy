/** Choosing the label language a taxonomy supports that best fits a request. */
module Localise {
  import opened Wrappers
  import opened Text

  /** The `ValueError` raised when the default language is not one of the supported ones. */
  datatype LanguageError = DefaultNotSupported(defaultLanguage: string)

  /** The request as compared: stripped, lower-cased, underscores turned into hyphens. */
  function Normalise(requested: string): string {
    Replace(Lower(Strip(requested)), "_", "-")
  }

  /** The primary language subtag: everything before the first hyphen. */
  function BaseTag(tag: string): (r: string)
    ensures '-' !in r && StartsWith(tag, r)
  {
    BeforeFirst(tag, '-')
  }

  /** A supported tag the fuzzy search accepts: it has a hyphen and its base is the request or the request's base. */
  predicate FuzzyFits(tag: string, request: string) {
    '-' in tag && (BaseTag(tag) == BaseTag(request) || BaseTag(tag) == request)
  }

  /** Scans `ascending` from its end, that is the tags in descending order, for the first that fits. */
  function LastFit(ascending: seq<string>, request: string): (r: Option<string>)
    ensures r.Some? ==> r.value in ascending && FuzzyFits(r.value, request)
    ensures r.None? ==> forall i :: 0 <= i < |ascending| ==> !FuzzyFits(ascending[i], request)
  {
    if ascending == [] then None
    else if FuzzyFits(ascending[|ascending| - 1], request) then Some(ascending[|ascending| - 1])
    else LastFit(ascending[..|ascending| - 1], request)
  }

  /** On a sorted list the scan finds the greatest fitting tag. */
  lemma {:induction false} LastFitGreatest(ascending: seq<string>, request: string)
    requires Sorted(ascending)
    ensures LastFit(ascending, request).Some? ==>
      forall i :: 0 <= i < |ascending| && FuzzyFits(ascending[i], request) ==>
        AtMost(ascending[i], LastFit(ascending, request).value)
  {
    if ascending != [] {
      var n := |ascending| - 1;
      if !FuzzyFits(ascending[n], request) {
        var front := ascending[..n];
        assert Sorted(front);
        LastFitGreatest(front, request);
        forall i | 0 <= i < |ascending| && FuzzyFits(ascending[i], request)
          ensures i < n && ascending[i] == front[i]
        {
        }
      }
    }
  }

  /**
   * `getBestSupportedLanguage`: an unsupported default is an error; an empty
   * request gives the default; otherwise the normalised request, then its
   * base subtag, then the greatest supported hyphenated tag whose base is the
   * request's base or the request itself, then the default.
   */
  function GetBestSupportedLanguage(requested: string, supported: seq<string>, defaultLanguage: Option<string>)
    : (r: Result<Option<string>, LanguageError>)
    ensures r.Err? <==> defaultLanguage.Some? && defaultLanguage.value !in supported
    ensures DefaultOk(supported, defaultLanguage) && requested == [] ==> r == Ok(defaultLanguage)
    ensures r.Ok? && r.value != defaultLanguage ==> r.value.Some? && r.value.value in supported
  {
    if defaultLanguage.Some? && defaultLanguage.value !in supported then
      Err(DefaultNotSupported(defaultLanguage.value))
    else if requested == [] then Ok(defaultLanguage)
    else
      var request := Normalise(requested);
      if request in supported then Ok(Some(request))
      else if BaseTag(request) in supported then Ok(Some(BaseTag(request)))
      else
        var ascending := Sort(supported);
        assert forall t :: t in ascending <==> t in supported by {
          assert forall t :: t in ascending <==> t in multiset(ascending);
          assert forall t :: t in supported <==> t in multiset(supported);
        }
        match LastFit(ascending, request)
        case Some(tag) => Ok(Some(tag))
        case None => Ok(defaultLanguage)
  }

  predicate DefaultOk(supported: seq<string>, defaultLanguage: Option<string>) {
    defaultLanguage.None? || defaultLanguage.value in supported
  }

  /** An exact match of the normalised request wins. */
  lemma ExactMatchWins(requested: string, supported: seq<string>, defaultLanguage: Option<string>)
    requires DefaultOk(supported, defaultLanguage) && requested != []
    requires Normalise(requested) in supported
    ensures GetBestSupportedLanguage(requested, supported, defaultLanguage) == Ok(Some(Normalise(requested)))
  {
  }

  /** Without an exact match, a supported base subtag wins. */
  lemma BaseMatchWins(requested: string, supported: seq<string>, defaultLanguage: Option<string>)
    requires DefaultOk(supported, defaultLanguage) && requested != []
    requires Normalise(requested) !in supported && BaseTag(Normalise(requested)) in supported
    ensures GetBestSupportedLanguage(requested, supported, defaultLanguage) == Ok(Some(BaseTag(Normalise(requested))))
  {
  }

  lemma SortKeepsMembers(xs: seq<string>)
    ensures forall t :: t in Sort(xs) <==> t in xs
  {
    assert forall t :: t in Sort(xs) <==> t in multiset(Sort(xs));
    assert forall t :: t in xs <==> t in multiset(xs);
  }

  /**
   * Without an exact or base match, the result is the greatest fitting
   * supported tag (in code-point order) when one exists, and the default
   * otherwise.
   */
  lemma FuzzyMatch(requested: string, supported: seq<string>, defaultLanguage: Option<string>)
    requires DefaultOk(supported, defaultLanguage) && requested != []
    requires Normalise(requested) !in supported && BaseTag(Normalise(requested)) !in supported
    ensures var r := GetBestSupportedLanguage(requested, supported, defaultLanguage);
      && r.Ok?
      && ((exists t :: t in supported && FuzzyFits(t, Normalise(requested))) ==>
            && r.value.Some?
            && r.value.value in supported && FuzzyFits(r.value.value, Normalise(requested))
            && forall t :: t in supported && FuzzyFits(t, Normalise(requested)) ==> AtMost(t, r.value.value))
      && ((forall t :: t in supported ==> !FuzzyFits(t, Normalise(requested))) ==> r.value == defaultLanguage)
  {
    var request := Normalise(requested);
    var ascending := Sort(supported);
    SortKeepsMembers(supported);
    LastFitGreatest(ascending, request);
    var fit := LastFit(ascending, request);
    if exists t :: t in supported && FuzzyFits(t, request) {
      var t :| t in supported && FuzzyFits(t, request);
      assert t in ascending;
      assert fit.Some?;
      forall u | u in supported && FuzzyFits(u, request) ensures AtMost(u, fit.value) {
        assert u in ascending;
      }
    }
  }

  /**
   * Only which tags are supported matters, not how the collection lists them:
   * the language chosen for the same request and default is the same.
   */
  lemma OrderIndependent(requested: string, a: seq<string>, b: seq<string>, defaultLanguage: Option<string>)
    requires forall t :: t in a <==> t in b
    ensures GetBestSupportedLanguage(requested, a, defaultLanguage) == GetBestSupportedLanguage(requested, b, defaultLanguage)
  {
    var request := Normalise(requested);
    if DefaultOk(a, defaultLanguage) && requested != [] && request !in a && BaseTag(request) !in a {
      FuzzyMatch(requested, a, defaultLanguage);
      FuzzyMatch(requested, b, defaultLanguage);
      var ra := GetBestSupportedLanguage(requested, a, defaultLanguage);
      var rb := GetBestSupportedLanguage(requested, b, defaultLanguage);
      if exists t :: t in a && FuzzyFits(t, request) {
        assert AtMost(ra.value.value, rb.value.value) && AtMost(rb.value.value, ra.value.value);
        BelowAsymmetric(ra.value.value, rb.value.value);
      }
    }
  }

  lemma NormaliseExamples()
    ensures Normalise("en-GB") == "en-gb" && Normalise("en-gb") == "en-gb"
  {
    NormaliseLowers("en-GB");
    NormaliseLowers("en-gb");
    LowerExamples();
  }

  lemma LowerExamples()
    ensures Lower("en-GB") == "en-gb" && Lower("en-gb") == "en-gb"
  {
    var l := Lower("en-GB");
    assert l[3] == 'g' && l[4] == 'b';
  }

  /** A tag without surrounding whitespace or underscores is only lower-cased. */
  lemma NormaliseLowers(tag: string)
    requires tag == [] || (!IsSpace(tag[0]) && !IsSpace(tag[|tag| - 1]))
    requires '_' !in tag
    ensures Normalise(tag) == Lower(tag)
  {
    StripUnchanged(tag);
    var lowered := Lower(tag);
    assert '_' !in lowered by {
      forall i | 0 <= i < |lowered| ensures lowered[i] != '_' {
        assert lowered[i] == LowerChar(tag[i]) && tag[i] != '_';
      }
    }
    ContainsChar(lowered, '_');
    assert "_" == ['_'];
    ReplaceAbsent(lowered, "_", "-");
  }

  lemma BaseTagExamples()
    ensures BaseTag("en-gb") == "en" && BaseTag("en-us") == "en"
  {
  }

  /** "en-GB" matches a supported "en-gb" exactly. */
  lemma ExactExample()
    ensures GetBestSupportedLanguage("en-GB", ["en-gb", "fr"], None) == Ok(Some("en-gb"))
  {
    NormaliseExamples();
  }

  /** "en-gb" falls back to a supported "en" when "en-gb" itself is not supported. */
  lemma BaseExample(supported: seq<string>)
    requires "en" in supported && "en-gb" !in supported
    ensures GetBestSupportedLanguage("en-gb", supported, Some("en")) == Ok(Some("en"))
  {
    NormaliseExamples();
    BaseTagExamples();
    BaseMatchWins("en-gb", supported, Some("en"));
  }

  /**
   * "en-gb" falls to "en-us" when the supported tags are "en-us" and others
   * with neither base "en" nor a hyphen.
   */
  lemma FuzzyExample(supported: seq<string>, defaultLanguage: Option<string>)
    requires DefaultOk(supported, defaultLanguage)
    requires "en-us" in supported
    requires forall t :: t in supported && t != "en-us" ==> '-' !in t
    requires "en-gb" !in supported && "en" !in supported
    ensures GetBestSupportedLanguage("en-gb", supported, defaultLanguage) == Ok(Some("en-us"))
  {
    NormaliseExamples();
    BaseTagExamples();
    assert "en-us"[2] == '-';
    assert FuzzyFits("en-us", "en-gb");
    FuzzyMatch("en-gb", supported, defaultLanguage);
  }

  /** An empty request gives the default, and an unsupported default is refused. */
  lemma DefaultExamples()
    ensures GetBestSupportedLanguage("", ["en", "fr"], Some("fr")) == Ok(Some("fr"))
    ensures GetBestSupportedLanguage("de", ["en", "fr"], Some("de")) == Err(DefaultNotSupported("de"))
  {
  }
}
