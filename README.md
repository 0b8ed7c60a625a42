# mireport taxonomy core, modelled in Dafny

mireport turns a sustainability report into Inline XBRL. The reporting
taxonomy arrives as a JSON description, and mireport loads it into a
`Taxonomy`. The `Taxonomy` holds:

- reified concepts with their labels in several languages;
- presentation groups, each with a presentation style;
- lookups of concepts by QName, by local name and by label;
- the dimensional tables: base sets, hypercubes, explicit-dimension domains and dimension defaults;
- a default label language, counted from the labels.

The enhanced JSON processor uses the taxonomy to decide what is reported:

- the unit of a numeric fact, chosen from the unit text, the configuration, the concept's
  measurement-guidance label and the Units Registry (UTR);
- which named ranges are dropped because a required dimension is unset;
- how an enumeration-set value becomes a set of domain members.

Small helpers complete the core: dash and space normalisation of labels, byte and duration
formatting, file-name checks, zip-safe names, label-language negotiation and order-preserving
de-duplication.

## How the model is organised

Each module follows one source file or one part of `taxonomy.py`:

| module | models |
|---|---|
| `Wrappers` | `Option` and `Result` |
| `Text` | the parts of Python's `str` the core relies on |
| `Dicts` | an insertion-ordered `dict` as a list of pairs |
| `QNames` | QNames |
| `Errors` | the exceptions, as values |
| `Utr` | the UTR, given as the tables that answer its questions |
| `StringUtil` | `stringutil.py` |
| `FileSupport` | `filesupport.py` |
| `Localise` | `localise.getBestSupportedLanguage` |
| `Concepts` | `Concept` |
| `Labels` | `_getLabelForRole` and `getRequiredUnitQNames` |
| `Presentation` | `Relationship` and `PresentationGroup` |
| `LanguageCounts` | the label-language counter |
| `Taxonomies` | the taxonomy value and the specification of its construction |
| `TaxonomyBuild` | the constructor's loops, proved against that specification |
| `TaxonomyFacts` | what a built taxonomy guarantees |
| `TaxonomyQueries` | the lookups |
| `Registry` | the module-level registry of taxonomies |
| `Units` | the unit choice of `enhanced_jsonprocessor.py` |
| `EnhancedJson` | the rest of the modelled processor rules |
| `TaxonomyInfo` | `unique_list` |
| `WebApp` | `format_timedelta` |

Some values are modelled as values; others as imperative code:

- A taxonomy is never changed after construction, so it is a datatype. `TaxonomyBuild.BuildTaxonomy`
  builds it with the constructor's own loops, each proved to compute a function in `Taxonomies`.
- The registry `_TAXONOMIES` is updated in place, so it is a class (`Registry.Registry`).
- The named-range state of the processor is also updated in place, so it is a class
  (`EnhancedJson.JsonProcessor`).
- Python dictionaries keep insertion order. Where order matters they are lists of pairs, and a
  lookup returns the first binding.
- Raised exceptions are the `Err` side of a `Result`, with one constructor per exception class.

## Model

| member | source | states |
|---|---|---|
| Concepts.ParsePeriodType | src/mireport/taxonomy.py:110-111 | `PeriodType(text)` accepts exactly "duration" and "instant" and renders back to the text it read; anything else is a `ValueError` naming the text |
| Concepts.NewConcept | src/mireport/taxonomy.py:98-141 | missing labels raise `KeyError("labels")`; construction succeeds exactly when the period type, data type and base data type are all present and the period type parses; a new concept copies every detail from the JSON, and its enumeration members are still unresolved |
| Concepts.MissingMemberIsTaxonomyException | src/mireport/taxonomy.py:110-129 | given labels and a valid period type, construction fails exactly when a required member is missing, and then with a `TaxonomyException` |
| Concepts.FirstMissing | src/mireport/taxonomy.py:171-173 | the first name the taxonomy lacks: none exactly when every name is known; otherwise a listed name that is unknown |
| Concepts.Reify | src/mireport/taxonomy.py:163-174 | a concept that is already reified raises `TaxonomyException`; reification succeeds exactly when every enumeration member name is a concept of the taxonomy; a missing member raises `KeyError` for a listed, unknown name; success marks the concept reified and changes nothing else |
| Concepts.ReifyOnce | src/mireport/taxonomy.py:165-168 | reifying a reified concept again always fails, whatever the taxonomy |
| Concepts.IsTypedDimension | src/mireport/taxonomy.py:370-372 | a dimension with a typed element; its property is carried by `Concepts.ClassifiedFromJson` and `Concepts.ReifyKeepsClassification` |
| Concepts.IsExplicitDimension | src/mireport/taxonomy.py:374-376 | a dimension that is not typed; carried by `Concepts.ClassifiedFromJson` |
| Concepts.IsReportable | src/mireport/taxonomy.py:378-380 | a concept that is not abstract; carried by `Concepts.ClassifiedFromJson` |
| Concepts.IsMonetary | src/mireport/taxonomy.py:382-386 | base data type `xbrli:monetaryItemType`; carried by `Concepts.ClassifiedFromJson` |
| Concepts.IsTextblock | src/mireport/taxonomy.py:388-390 | data type with local name `textBlockItemType`, whatever its namespace; carried by `Concepts.ClassifiedFromJson` |
| Concepts.IsDate | src/mireport/taxonomy.py:392-396 | base data type `xbrli:dateItemType`; carried by `Concepts.ClassifiedFromJson` |
| Concepts.IsBoolean | src/mireport/taxonomy.py:406-410 | base data type `xbrli:booleanItemType`; carried by `Concepts.ClassifiedFromJson` |
| Concepts.IsEnumerationSingle | src/mireport/taxonomy.py:412-416 | data type `enum2:enumerationItemType`; carried by `Concepts.ClassifiedFromJson` |
| Concepts.IsEnumerationSet | src/mireport/taxonomy.py:418-422 | data type `enum2:enumerationSetItemType`; carried by `Concepts.ClassifiedFromJson` |
| Concepts.ClassifiedFromJson | src/mireport/taxonomy.py:370-422 | each classification property of a newly built concept holds exactly when the JSON details it was built from say so: typed or explicit dimension by the dimension flag and typed element, reportable by the abstract flag, monetary, date and boolean by the base data type, textblock and the two enumerations by the data type |
| Concepts.ReifyKeepsClassification | src/mireport/taxonomy.py:163-174 | reifying a concept leaves every classification property as it was |
| Concepts.ReifiedDomainKnown | src/mireport/taxonomy.py:170-173 | after reification `getEEDomain` lists the member names in their written order, and each is a concept of the taxonomy |
| Dicts.Get | src/mireport/taxonomy.py:195-197 | `dict.get` finds a value exactly when the key is bound, and the value found is bound to the key |
| Dicts.GetAppend | src/mireport/taxonomy.py:195-197 | bindings inserted later do not change what an earlier key maps to |
| QNames.ExpandedName | src/mireport/taxonomy.py:424-426 | `expandedName` is the namespace, then `#`, then the local name |
| QNames.ExpandedNameInjective | src/mireport/taxonomy.py:424-426 | distinct QNames have distinct expanded names, provided the namespace holds no `#` |
| QNames.QNameText | src/mireport/taxonomy.py:145-146 | `str(qname)` ends with the local name |
| StringUtil.TranslateDashes | src/mireport/stringutil.py:1-6 | the translation maps each em and en dash to a hyphen-minus, position by position, and keeps every other character |
| StringUtil.UnicodeDashNormalization | src/mireport/stringutil.py:9-12 | the result holds no em or en dash and has no whitespace at either end |
| StringUtil.DashNormalizationIdempotent | src/mireport/stringutil.py:9-12 | normalising a normalised label changes nothing |
| StringUtil.UnicodeSpaceNormalize | src/mireport/stringutil.py:15-45 | the sixteen Zs separators become a plain space, position by position; every other character is kept |
| StringUtil.SpaceNormalizeIdempotent | src/mireport/stringutil.py:40-45 | the result holds no Zs separator other than space, so normalising twice is normalising once |
| StringUtil.FormatBytes | src/mireport/stringutil.py:74-88 | an integer text is produced exactly below 1 GiB |
| StringUtil.FormatBytesReadsBack | src/mireport/stringutil.py:74-86 | below 1 GiB the text reads back as an amount below 1024 of B, KiB or MiB; that unit does not exceed the size; amount times unit brackets the size within one unit; only bytes are shown as 0 |
| StringUtil.FormatTimeNs | src/mireport/stringutil.py:48-71 | an integer text is produced exactly below one second |
| StringUtil.FormatTimeNsReadsBack | src/mireport/stringutil.py:48-63 | below a second the text reads back as an amount below 1000 of ns, µs or ms, bracketing the duration within one unit |
| StringUtil.ScaledReadsBack | src/mireport/stringutil.py:57-63 | `f"{n // unit} {name}"` reads back as a floor division bracketing `n` |
| StringUtil.UnitTables | src/mireport/stringutil.py:48-86 | the unit names map to 1, 2^10 and 2^20 bytes and to 1, 10^3 and 10^6 ns |
| FileSupport.IsValidFilename | src/mireport/filesupport.py:16-40 | a name is valid exactly when it is not "." or "..", its upper-cased form is not a reserved device name, and it holds none of `<>:"/\|?*` |
| FileSupport.ReservedNameExamples | src/mireport/filesupport.py:19-33 | ".", "..", "CON", "con", "AuX", "com7" and "Lpt1" are refused |
| FileSupport.CharacterExamples | src/mireport/filesupport.py:36-38 | "my\|file.txt" and "bad:file" are refused |
| FileSupport.PlainNameExamples | src/mireport/filesupport.py:16-40 | "test.txt" and "file.name.ext" are accepted |
| FileSupport.SubUnwanted | src/mireport/filesupport.py:12-47 | the substitution leaves only word characters (Unicode `\w`) and dots; it is no longer than its input and empty exactly when its input is |
| FileSupport.SubUnwantedKeeps | src/mireport/filesupport.py:12-47 | a text of word characters and dots is unchanged |
| FileSupport.SubUnwantedWord | src/mireport/filesupport.py:12-47 | word characters and dots before a match are copied in order, and the substitution goes on after them |
| FileSupport.SubUnwantedRun | src/mireport/filesupport.py:12-47 | a whole run of other characters, up to the end or the next word character or dot, becomes exactly one `_` |
| FileSupport.SubUnwantedReplacesRun | src/mireport/filesupport.py:12-47 | one match at a time: `w + u + rest` becomes `w + "_"` followed by the substitution of `rest` |
| FileSupport.SubUnwantedSeparated | src/mireport/filesupport.py:12-47 | any text cut into zip words and the runs of other characters between them becomes the words joined by `_`, with a `_` for a leading or trailing run too |
| FileSupport.ZipSafeString | src/mireport/filesupport.py:43-50 | the result is the fallback, or a non-empty valid file name made of word characters and dots; the substitution applied to the whitespace-separated words joined by `_` is returned exactly when it is non-empty and a valid file name, and the fallback otherwise; a blank name gives the fallback |
| Text.SplitWhitespaceSeparated | src/mireport/filesupport.py:44-46 | words separated by whitespace runs of any length are exactly what `split()` returns |
| FileSupport.ZipSafeSpaces | src/mireport/filesupport.py:43-50 | zip words separated by whitespace runs of any length give the words joined by single underscores, or the fallback when that is not a valid name |
| FileSupport.ZipSafeRuns | src/mireport/filesupport.py:43-50 | a name without whitespace, cut into zip words and runs of other characters, gives the words joined by single underscores, or the fallback when that is not a valid name |
| FileSupport.ZipSafeGoodFilename | tests/unitTests/test_filesupport.py:40-42 | "good filename.txt" becomes "good_filename.txt" |
| FileSupport.ZipSafeNormalName | tests/unitTests/test_filesupport.py:40-42 | "normal_name.doc" is kept |
| FileSupport.ZipSafeSomeFileName | tests/unitTests/test_filesupport.py:45-46 | "some    file   name.txt" becomes "some_file_name.txt" |
| FileSupport.ZipSafeBadFileName | tests/unitTests/test_filesupport.py:49-51 | "bad/file:name*here.txt" becomes "bad_file_name_here.txt" |
| FileSupport.ZipSafeWeirdName | tests/unitTests/test_filesupport.py:49-51 | "weird#name?.ext" becomes "weird_name_.ext" |
| FileSupport.ZipSafeReservedFallback | tests/unitTests/test_filesupport.py:54-63 | "CON" gives the fallback, whichever fallback is passed |
| FileSupport.ZipSafeEmptyFallback | tests/unitTests/test_filesupport.py:58-59 | "" gives the fallback |
| FileSupport.ZipSafeKeepsAccents | src/mireport/filesupport.py:12-50 | "café.txt" is kept when `é` is a word character, as Python's Unicode `\w` makes it |
| FileSupport.ZipSafeKeeps | src/mireport/filesupport.py:43-50 | a name that is already zip safe and valid is returned unchanged, whatever the fallback |
| FileSupport.ZipSafeIdempotent | src/mireport/filesupport.py:43-50 | unless the fallback was used, making a name zip safe twice is making it zip safe once |
| FileSupport.ZipSafeWord | src/mireport/filesupport.py:43-50 | a single zip-safe word is kept when it is a valid file name and replaced by the fallback otherwise |
| FileSupport.ZipSafeBlank | src/mireport/filesupport.py:46-49 | a blank name gives the fallback |
| FileSupport.FilelikeAndFileName.Describe | src/mireport/filesupport.py:60-61 | below 1 GiB the text is the quoted file name followed by `format_bytes` of the content length in brackets |
| FileSupport.DescribeExamples | src/mireport/filesupport.py:60-61 | 14 bytes named example.doc read `"example.doc" [14 B]`; an empty file reads `[0 B]` |
| Localise.BaseTag | src/mireport/localise.py:197 | `partition("-")[0]` is a hyphen-free prefix of the tag |
| Localise.LastFit | src/mireport/localise.py:207-216 | the reverse-sorted scan returns a supported tag that fuzzily fits; it returns none exactly when no tag fits |
| Localise.LastFitGreatest | src/mireport/localise.py:207-216 | the tag chosen is the greatest fitting tag in code-point order |
| Localise.GetBestSupportedLanguage | src/mireport/localise.py:167-219 | a default language outside the supported set raises `ValueError`, and nothing else fails; with a supported or absent default, an empty request gives the default; any answer other than the default is a supported language |
| Localise.ExactMatchWins | src/mireport/localise.py:187-193 | a normalised request that is supported is returned as it is |
| Localise.BaseMatchWins | src/mireport/localise.py:195-199 | otherwise a supported base language of the request is returned |
| Localise.FuzzyMatch | src/mireport/localise.py:201-219 | otherwise the greatest supported tag that fuzzily fits is returned; with no fit the default is returned |
| Localise.OrderIndependent | src/mireport/localise.py:207 | the answer depends only on the set of supported languages, not on their order |
| Localise.NormaliseLowers | src/mireport/localise.py:187 | for a tag without surrounding space or `_`, normalisation is lower-casing |
| Localise.NormaliseExamples | src/mireport/localise.py:187 | "en-GB" and "en-gb" both normalise to "en-gb" |
| Localise.BaseTagExamples | src/mireport/localise.py:197 | the base of "en-gb" and of "en-us" is "en" |
| Localise.ExactExample | src/mireport/localise.py:189-193 | "en-GB" against [en-gb, fr] gives en-gb |
| Localise.BaseExample | src/mireport/localise.py:195-199 | "en-gb" against a set holding "en" but not "en-gb" gives en |
| Localise.FuzzyExample | src/mireport/localise.py:201-216 | "en-gb" against [en-us, fr] gives en-us |
| Localise.DefaultExamples | src/mireport/localise.py:179-185 | the examples: an empty request against `en` and `fr` gives the default `fr`; the unsupported default `de` raises `ValueError` |
| Labels.FirstTruthy | src/mireport/taxonomy.py:216-220 | the first-hit scan yields nothing or a non-empty label |
| Labels.LookupPrimary | src/mireport/taxonomy.py:195-206 | the exact-language and base-language loop computes the primary label of its specification |
| Labels.LookupAnyLang | src/mireport/taxonomy.py:208-220 | the any-language loop computes the first non-empty label among the buckets, with the default bucket first |
| Labels.GetLabelForRole | src/mireport/taxonomy.py:176-231 | the method computes the label specification; without a default language there is no label |
| Labels.ExactLanguageOnly | src/mireport/taxonomy.py:195-197 | when the requested language is a key only its bucket counts, whatever follows it |
| Labels.BaseLanguageFallback | src/mireport/taxonomy.py:198-206 | otherwise a non-empty label exists exactly when some language with the same base has one, and it comes from a bucket |
| Labels.BaseScanHit | src/mireport/taxonomy.py:201-206 | the base-language loop stops at the first matching language with a non-empty label and returns it |
| Labels.BaseScanMiss | src/mireport/taxonomy.py:201-206 | with no non-empty matching label, the loop ends with none or an empty one |
| Labels.FirstMatch | src/mireport/taxonomy.py:201-206 | the first matching language with a non-empty label exists when any does, and no earlier match has one |
| Labels.DefaultLanguageFirst | src/mireport/taxonomy.py:208-220 | when the request missed and is not the default, a non-empty default-language label wins over all other buckets |
| Labels.RequestedDefaultInOrder | src/mireport/taxonomy.py:208-220 | when the request is the default, the buckets are tried in map order |
| Labels.FallbacksOnlyWhenNone | src/mireport/taxonomy.py:222-226 | the caller's fallback, then the QName text, are used only when no label at all, not even an empty one, was found |
| Labels.FirstTruthyFrom | src/mireport/taxonomy.py:216-220 | a label found by the first-hit scan is the role's label in one of the buckets |
| Labels.BaseScanFrom | src/mireport/taxonomy.py:201-206 | a label kept by the base-language loop is the role's label in one of the buckets |
| Labels.LabelProvenance | src/mireport/taxonomy.py:176-226 | any label found before suffix removal is a label of the concept for that role, the caller's fallback, or the QName text |
| Labels.StripLabelSuffix | src/mireport/taxonomy.py:228-231 | suffix removal yields a prefix of the label; when it changes the label, no whitespace is left at the end |
| Labels.StripLabelSuffixRemovesTag | src/mireport/taxonomy.py:40 | a label ending in a bracketed lower-case tag loses the tag and all whitespace before it |
| Labels.StripBracketed | src/mireport/taxonomy.py:40 | the same, stated for the text before the last `[` |
| Labels.StripLabelSuffixKeeps | src/mireport/taxonomy.py:40 | a label that does not end in `]`, trailing whitespace aside, is kept |
| Labels.RequiredUnitQNames | src/mireport/taxonomy.py:292-356 | nothing is required for a non-numeric concept, for a data type without UTR units, or without a non-empty measurement label; a required set is non-empty and holds only units the UTR lists for the data type; a set of two or more comes from the units recognised in the label |
| Labels.UnitIdLabelRequiresIt | src/mireport/taxonomy.py:314-319 | a measurement label that is a UTR unit id for an allowed unit requires exactly that unit |
| LanguageCounts.Leader | src/mireport/taxonomy.py:894-917 | the leader of the first entries is one of them with the highest count, and every entry before it has a strictly lower count |
| LanguageCounts.MostCommon | src/mireport/taxonomy.py:894-917 | `most_common(1)` is none exactly for no labels; otherwise it is a language with the highest count, and the first inserted among equally frequent ones |
| Presentation.RelationshipFlags | src/mireport/taxonomy.py:458-477 | all three flags need a preferred label; period end and negated also need a numeric concept; a preferred label naming periodStart sets the flag, and one naming periodEnd or negated sets it exactly for numeric concepts |
| Presentation.RelationshipLabelRole | src/mireport/taxonomy.py:448 | the label role is the preferred label when it is non-empty, otherwise the standard role |
| Presentation.PopFor | src/mireport/taxonomy.py:551-553 | popping keeps the bottom frame and the style flags and removes at most one frame |
| Presentation.PushFor | src/mireport/taxonomy.py:554-556 | pushing a hypercube frame keeps the stack well formed and the flags unchanged |
| Presentation.MarkFor | src/mireport/taxonomy.py:557-561 | marking leaves the stacks alone, never clears a flag, and a reportable row always sets one |
| Presentation.StepRow | src/mireport/taxonomy.py:550-561 | one iteration keeps the stack well formed, pops at most one frame, and never clears a flag; a reportable row sets a flag |
| Presentation.WalkRows | src/mireport/taxonomy.py:550-561 | the walk keeps the stack well formed and never clears a flag |
| Presentation.WalkRowsAppend | src/mireport/taxonomy.py:550-561 | walking two row lists one after the other is walking their concatenation |
| Presentation.WalkSetsFlag | src/mireport/taxonomy.py:557-561 | a walk over rows with a reportable concept ends with a flag set |
| Presentation.IdentifyPresentationStyle | src/mireport/taxonomy.py:535-571 | the method, with its early answers and its stack loop, returns the style of its specification |
| Presentation.WalkFrames | src/mireport/taxonomy.py:545-561 | the loop over the two parallel stacks ends with the flags of the specified walk |
| Presentation.VisitRow | src/mireport/taxonomy.py:551-561 | one pass of the loop body leaves the stacks and flags of one specified step |
| Presentation.MarkRow | src/mireport/taxonomy.py:557-561 | the marking statement sets the flags of the specified marking |
| Presentation.StyleEmptyIff | src/mireport/taxonomy.py:538-543 | the style is Empty exactly when no concept is reportable; it is List when no concept is a hypercube |
| Presentation.HypercubeChildMakesTable | src/mireport/taxonomy.py:551-567 | a reportable row directly under a hypercube at the same depth or deeper makes the style Table or Hybrid |
| Presentation.GroupLabel | src/mireport/taxonomy.py:500-509 | a non-empty label in the requested language wins; failing that, a non-empty label in the default language; failing both, the definition; the result is always one of the group's non-empty labels or its definition, and the definition when there are no labels |
| Presentation.RelationshipsFromMeaning | src/mireport/taxonomy.py:513-524 | the rows are read in order and succeed exactly when every concept is known; an unknown concept raises `KeyError` for one of the rows |
| Presentation.GroupFromJson | src/mireport/taxonomy.py:511-532 | `fromJSON` succeeds exactly when rows are present and every concept is known, and then holds one relationship per row |
| Taxonomies.ParseContainer | src/mireport/taxonomy.py:655-657 | `DimensionContainerType(text)` accepts exactly "segment" and "scenario" and renders back to its text; anything else is a `ValueError` |
| Taxonomies.ExplicitDimensionsOf | src/mireport/taxonomy.py:668-675 | the explicit dimensions are read exactly when every dimension and member is a concept; each keeps its dimension and member set; otherwise an unknown name raises `KeyError` |
| Taxonomies.ReadCube | src/mireport/taxonomy.py:647-682 | a missing closed flag or context element raises `KeyError`; a cube read copies its flag, container, primary items and typed dimensions and refers only to known concepts |
| Taxonomies.AppendTo | src/mireport/taxonomy.py:608-610 | appending to a `defaultdict(list)` adds the value at the end of the key's list and changes no other key |
| Taxonomies.AddTo | src/mireport/taxonomy.py:612-628 | adding to a label index adds the concept under the key and changes no other key |
| Taxonomies.ConceptMap | src/mireport/taxonomy.py:599 | the concept map has one key per concept QName, and each key maps to a concept with that QName |
| Taxonomies.PretendKeys | src/mireport/taxonomy.py:617-622 | the three pretend keys are the dash-normalised label, the stripped text before its last `[`, and that text lower-cased |
| TaxonomyBuild.ReifyConcepts | src/mireport/taxonomy.py:599-601 | the reification loop computes its specification and stops at the first failure |
| TaxonomyBuild.ReadGroups | src/mireport/taxonomy.py:603-606 | the group loop computes one `fromJSON` per role and stops at the first failure |
| TaxonomyBuild.IndexNames | src/mireport/taxonomy.py:608-610 | the name loop computes the name index |
| TaxonomyBuild.IndexLabels | src/mireport/taxonomy.py:612-628 | the label loop computes the standard-label and pretend-label indices |
| TaxonomyBuild.LabelIndexStep | src/mireport/taxonomy.py:614-622 | one turn of the label loop indexes the concept's standard label, if it has one |
| TaxonomyBuild.AppendPrimaryItems | src/mireport/taxonomy.py:665-666 | the primary-item loop files the base set under every primary item |
| TaxonomyBuild.ExtendDomains | src/mireport/taxonomy.py:676-677 | the domain loop adds each dimension's members to its domain |
| TaxonomyBuild.ReadCubes | src/mireport/taxonomy.py:647-685 | the cube loop computes the dimensional tables of one role |
| TaxonomyBuild.ReadRoles | src/mireport/taxonomy.py:644-685 | the role loop computes the dimensional tables; a cube QName the taxonomy lacks raises `KeyError` |
| TaxonomyBuild.BuildTaxonomy | src/mireport/taxonomy.py:580-718 | the constructor computes the taxonomy of its specification, or the error it raises |
| TaxonomyBuild.Finishing | src/mireport/taxonomy.py:608-718 | the steps after the groups compute the rest of the specification, ending with the container rule |
| TaxonomyFacts.NamesOfMembers | src/mireport/taxonomy.py:608-610 | the concepts listed under a local name are exactly the concepts with that local name |
| TaxonomyFacts.NameIndexLists | src/mireport/taxonomy.py:608-610 | each name lists its concepts in input order, after what it already held |
| TaxonomyFacts.InIndexAddTo | src/mireport/taxonomy.py:616-622 | adding a concept under a key adds exactly that pair |
| TaxonomyFacts.IndexLabelHas | src/mireport/taxonomy.py:615-622 | indexing a label adds the concept under the label, and under exactly the three pretend keys |
| TaxonomyFacts.InIndexAddThree | src/mireport/taxonomy.py:618-622 | three additions add exactly the three keys |
| TaxonomyFacts.SomeLabelledCons | src/mireport/taxonomy.py:614-616 | a concept is labelled in a list exactly when it is labelled by its head or by its tail |
| TaxonomyFacts.SomePretendingCons | src/mireport/taxonomy.py:614-622 | the same for pretend keys |
| TaxonomyFacts.LabelIndexStandard | src/mireport/taxonomy.py:612-624 | the standard-label index holds a pair exactly when it held it before or some concept has that standard label |
| TaxonomyFacts.LabelIndexPretend | src/mireport/taxonomy.py:612-628 | the pretend-label index holds a pair exactly when it held it before or some concept has that pretend key |
| TaxonomyFacts.StandardIndexBuilt | src/mireport/taxonomy.py:612-625 | a built standard-label index maps each label to exactly the concepts with that standard label |
| TaxonomyFacts.PretendIndexBuilt | src/mireport/taxonomy.py:612-628 | a built pretend-label index maps each key to exactly the concepts with that pretend key |
| TaxonomyFacts.PretendKeysWithoutBracket | src/mireport/taxonomy.py:619-622 | a label without `[` is filed under the empty pretend key, twice |
| TaxonomyFacts.PretendKeysWithBracket | src/mireport/taxonomy.py:619-622 | for a label with `[` the second and third keys are the stripped text before the last `[` and its lower-case form |
| TaxonomyFacts.AskedCons | src/mireport/taxonomy.py:655-658 | the containers asked by a list of cubes are the head's and the tail's |
| TaxonomyFacts.ReadCubeContainer | src/mireport/taxonomy.py:655-659 | a cube read keeps the container its JSON names |
| TaxonomyFacts.CubesFromContainers | src/mireport/taxonomy.py:647-658 | the cube loop collects every container its cubes ask for |
| TaxonomyFacts.RolesFromContainers | src/mireport/taxonomy.py:644-658 | the role loop collects every container any cube asks for |
| TaxonomyFacts.ContainerOfAtMostOne | src/mireport/taxonomy.py:709-713 | with no container asked the default is scenario; with one it is that one |
| TaxonomyFacts.FinishContainer | src/mireport/taxonomy.py:709-718 | construction fails with `TaxonomyException` exactly when two or more containers were collected; otherwise the container is the one chosen |
| TaxonomyFacts.ContainerRule | src/mireport/taxonomy.py:709-718 | the same, in terms of the containers the dimensions JSON asks for: scenario when none, the only one when one, an error when several |
| TaxonomyFacts.AddDomainsGrows | src/mireport/taxonomy.py:676-677 | extending domains loses no member and holds every member of every dimension added |
| TaxonomyFacts.AddCubeCovers | src/mireport/taxonomy.py:661-685 | after a cube is entered, the domain of each of its dimensions holds its members |
| TaxonomyFacts.CubesFromCovers | src/mireport/taxonomy.py:647-685 | the cube loop keeps that invariant |
| TaxonomyFacts.RolesFromCovers | src/mireport/taxonomy.py:644-685 | the role loop keeps that invariant |
| TaxonomyFacts.ReifyAllQNames | src/mireport/taxonomy.py:599-601 | reification keeps the concepts' QNames, in order |
| TaxonomyFacts.FinishRecords | src/mireport/taxonomy.py:589-718 | a finished taxonomy keeps the entry point, prefixes, UTR and concepts, and holds the name index, the label indices, the defaults, the dimensional tables and the hypercubes of its specification |
| TaxonomyFacts.BuiltFrom | src/mireport/taxonomy.py:580-718 | a built taxonomy has one concept per input QName, filed under it, and the indices and tables of its specification |
| TaxonomyFacts.DefaultsFromBinds | src/mireport/taxonomy.py:630-633 | reading the `_defaults` pairs binds exactly the dimensions they name, each to the member of the last pair naming it, and keeps every other binding |
| TaxonomyFacts.DefaultsBuilt | src/mireport/taxonomy.py:874-879 | on a built taxonomy a dimension is defaulted, and has a default, exactly when a `_defaults` pair names it; the default is the member of the last such pair |
| TaxonomyFacts.CubesFromBaseSets | src/mireport/taxonomy.py:646-686 | reading a role's cubes files them under the role's base set, which is added exactly when the role has a cube |
| TaxonomyFacts.CubesFromHypercubes | src/mireport/taxonomy.py:644-686 | reading one role's cubes adds to the hypercubes exactly the names of that role's cubes |
| TaxonomyFacts.RolesFromHypercubes | src/mireport/taxonomy.py:644-693 | reading the roles adds to the hypercubes exactly the cube names of every role |
| TaxonomyFacts.HypercubesBuilt | src/mireport/taxonomy.py:691-693 | on a built taxonomy the hypercubes are exactly the cubes the `dimensions` JSON names |
| TaxonomyFacts.EmptyHypercubesBuilt | src/mireport/taxonomy.py:766-770 | on a built taxonomy a concept is an empty hypercube exactly when it is a hypercube concept that no cube of the `dimensions` JSON names |
| TaxonomyFacts.SameQNamesSameKeys | src/mireport/taxonomy.py:599 | concept lists with the same QNames give concept maps with the same keys |
| TaxonomyFacts.ConceptBuilt | src/mireport/taxonomy.py:720-723 | in a built taxonomy `getConcept` succeeds exactly for the input concepts' QNames, and returns the concept with that QName |
| TaxonomyFacts.ConceptForNameBuilt | src/mireport/taxonomy.py:725-735 | in a built taxonomy `getConceptForName` decides over exactly the input concepts with that local name, duplicates counted |
| TaxonomyFacts.ConceptForLabelBuilt | src/mireport/taxonomy.py:737-755 | in a built taxonomy `getConceptForLabel` decides over the concepts with that standard label; failing that, those with the normalised label as a pretend key; failing that, its lower-case form |
| TaxonomyFacts.DomainMemberRecorded | src/mireport/taxonomy.py:676-690 | every member of an explicit dimension in any cube is in that dimension's domain |
| TaxonomyFacts.DomainMemberDimension | src/mireport/taxonomy.py:846-872 | the dimension found for a domain member has that member in its domain |
| TaxonomyFacts.AddPrimaryItemsGrows | src/mireport/taxonomy.py:661-666 | filing a base set under the primary items of a cube keeps every earlier entry and files the base set under each of those items |
| TaxonomyFacts.AddCubeLinked | src/mireport/taxonomy.py:647-686 | adding a cube keeps the tables linked: a base set is filed under a hypercube only if it names it, and under every primary item of each of its cubes |
| TaxonomyFacts.RolesFromLinked | src/mireport/taxonomy.py:644-686 | the tables built from every role are linked in that sense |
| TaxonomyFacts.LinkedPrimaryItemHypercubes | src/mireport/taxonomy.py:812-843 | with linked tables, a primary item of a hypercube has that hypercube among its own and inherits its explicit and typed dimensions |
| TaxonomyFacts.PrimaryItemHypercubesBuilt | src/mireport/taxonomy.py:812-843 | in a built taxonomy a primary item found for a hypercube has that hypercube among its own, and every explicit and typed dimension of the hypercube among its own dimensions |
| TaxonomyQueries.GetConcept | src/mireport/taxonomy.py:720-723 | `getConcept` raises `KeyError` exactly for a QName the taxonomy lacks |
| TaxonomyQueries.OneOfList | src/mireport/taxonomy.py:725-735 | no candidate gives none, one gives it, and several raise `AmbiguousComponentException` naming them |
| TaxonomyQueries.OneOfSet | src/mireport/taxonomy.py:737-755 | no candidate gives none, one gives it, and several raise `AmbiguousComponentException` naming them |
| TaxonomyQueries.GetConceptForName | src/mireport/taxonomy.py:725-735 | no concept listed under the name gives none, exactly one gives it, and two or more, duplicates counted, raise `AmbiguousComponentException`; `TaxonomyFacts.ConceptForNameBuilt` ties the list to the input concepts |
| TaxonomyQueries.GetConceptForLabel | src/mireport/taxonomy.py:737-755 | no candidate gives none, a single candidate gives it, and two or more raise `AmbiguousComponentException`; `TaxonomyFacts.ConceptForLabelBuilt` says which stage supplies the candidates |
| TaxonomyQueries.PrimaryItemsForHypercube | src/mireport/taxonomy.py:812-823 | a hypercube no base set uses has no primary items; `TaxonomyFacts.PrimaryItemHypercubesBuilt` relates the result to the primary item's own hypercubes |
| TaxonomyQueries.HypercubesForPrimaryItem | src/mireport/taxonomy.py:825-829 | a primary item in no base set has no hypercubes; see `TaxonomyFacts.PrimaryItemHypercubesBuilt` |
| TaxonomyQueries.ExplicitDimensionsForPrimaryItem | src/mireport/taxonomy.py:831-836 | a primary item in no base set has no explicit dimensions; see `TaxonomyFacts.PrimaryItemHypercubesBuilt` |
| TaxonomyQueries.TypedDimensionsForPrimaryItem | src/mireport/taxonomy.py:838-843 | a primary item in no base set has no typed dimensions; see `TaxonomyFacts.PrimaryItemHypercubesBuilt` |
| TaxonomyQueries.ExplicitDimensionForDomainMember | src/mireport/taxonomy.py:845-868 | a primary item in no base set gives none; otherwise no dimension whose domain holds the member gives none, exactly one gives it, and two or more raise `AmbiguousComponentException`; `TaxonomyFacts.DomainMemberDimension` shows the dimension found has the member in its domain |
| TaxonomyQueries.DomainMembersForExplicitDimension | src/mireport/taxonomy.py:870-874 | an unknown dimension has an empty domain; `TaxonomyFacts.DomainMemberRecorded` shows every member of the dimension in any cube is included |
| TaxonomyQueries.BestSupportedLanguageTotal | src/mireport/taxonomy.py:910-930 | negotiating against the taxonomy's own languages never fails; the default language is none exactly when no label exists |
| TaxonomyQueries.DimensionsForHypercubeUnion | src/mireport/taxonomy.py:772-810 | `getDimensionsForHypercube` is the union of the explicit and the typed dimensions |
| Registry.NewConcepts | src/mireport/taxonomy.py:967-970 | the concept comprehension succeeds exactly when every entry does, gives one concept per entry in order, and otherwise raises one entry's error |
| Registry.Load | src/mireport/taxonomy.py:956-982 | a missing entry point raises `KeyError`; an entry point already loaded raises `TaxonomyException`; a loaded taxonomy carries its entry point, its namespaces and the UTR |
| Registry.Registry.constructor | src/mireport/taxonomy.py:940 | the registry starts empty |
| Registry.Registry.GetTaxonomy | src/mireport/taxonomy.py:943-950 | a taxonomy is found exactly under a loaded entry point, and it is the one filed there; otherwise `UnknownTaxonomyException` is raised |
| Registry.Registry.ListTaxonomies | src/mireport/taxonomy.py:952-953 | every loaded entry point is listed once, and only those |
| Registry.Registry.LoadTaxonomyFromFile | src/mireport/taxonomy.py:956-982 | on success the taxonomy is filed under its entry point, which is listed last; on failure the registry is unchanged; success is exactly that of `Load` |
| Registry.LoadOnce | src/mireport/taxonomy.py:956-982 | loading the same entry point a second time fails, whatever the file holds |
| TaxonomyInfo.UniqueList | src/mireport/arelle/taxonomy_info.py:32-34 | `unique_list` holds no repeats, and holds exactly the elements of its input |
| TaxonomyInfo.FirstOccurrenceOrder | src/mireport/arelle/taxonomy_info.py:32-34 | elements keep the order of their first occurrences |
| TaxonomyInfo.UniqueListKeeps | src/mireport/arelle/taxonomy_info.py:32-34 | a list without repeats is returned unchanged |
| TaxonomyInfo.UniqueListIdempotent | src/mireport/arelle/taxonomy_info.py:32-34 | de-duplicating twice is de-duplicating once |
| Units.CleanUnitTextFromJson | src/mireport/enhanced_jsonprocessor.py:40-45 | the loop applies the replacements in order; with none the text is unchanged |
| Units.ApplyReplacementsAppend | src/mireport/enhanced_jsonprocessor.py:40-45 | applying two lists of replacements is applying one after the other |
| Units.ApplyReplacementsAbsent | src/mireport/enhanced_jsonprocessor.py:40-45 | replacements whose patterns do not occur leave the text unchanged |
| Units.ApplyReplacementsSelf | src/mireport/enhanced_jsonprocessor.py:40-45 | replacements that map a pattern to itself leave the text unchanged |
| Units.ParenGroups | src/mireport/enhanced_jsonprocessor.py:611 | each group found holds no `)` and no line break |
| Units.ParenGroupsNone | src/mireport/enhanced_jsonprocessor.py:611 | a text without `(` has no groups |
| Units.ParenGroupsFirst | src/mireport/enhanced_jsonprocessor.py:611 | the first group is the text between the first `(` and the next `)` |
| Units.AfterLastColon | src/mireport/enhanced_jsonprocessor.py:614-616 | the text after the last colon of `prefix:id` is `id` when `id` holds no colon |
| Units.UnitHits | src/mireport/enhanced_jsonprocessor.py:618-622 | no hit exactly when no candidate is a UTR unit id, and each hit is the unit of some candidate |
| Units.UnitHitsAppend | src/mireport/enhanced_jsonprocessor.py:618-622 | the hits of two lists of candidates are the hits of the first followed by those of the second |
| Units.UnitHitsOne | src/mireport/enhanced_jsonprocessor.py:618-622 | a candidate naming a unit adds exactly that unit, once; one naming none adds nothing |
| Units.UnitHitsOnly | src/mireport/enhanced_jsonprocessor.py:618-622 | when exactly one candidate names a unit, that unit is the only hit |
| Units.UnitHitsTwo | src/mireport/enhanced_jsonprocessor.py:618-622 | two candidates naming units, even the same unit, give at least two hits |
| Units.CleanAll | src/mireport/enhanced_jsonprocessor.py:626-629 | every candidate is cleaned, position by position |
| Units.PossibleUnits | src/mireport/enhanced_jsonprocessor.py:618-634 | every possible unit is named by some candidate, as it stands or once cleaned |
| Units.GetSimpleUnit | src/mireport/enhanced_jsonprocessor.py:598-655 | an empty text gives no unit; otherwise a unit exactly when there is one possible unit, and then it is that unit; a unit found is named by a candidate of the text |
| Units.OneCandidateNamesTheUnit | src/mireport/enhanced_jsonprocessor.py:604-647 | when exactly one candidate names a unit as it stands, that unit is returned |
| Units.TwoCandidatesGiveNone | src/mireport/enhanced_jsonprocessor.py:604-655 | when two candidates name units as they stand, even the same unit, no unit is returned |
| Units.OneCleanedCandidateNamesTheUnit | src/mireport/enhanced_jsonprocessor.py:604-647 | when no candidate names a unit as it stands and exactly one cleaned candidate does, that unit is returned |
| Units.FirstPassDecides | src/mireport/enhanced_jsonprocessor.py:624-634 | when a candidate names a unit as it stands, the replacements do not matter |
| Units.SeveralUnitsGiveNone | src/mireport/enhanced_jsonprocessor.py:644-655 | two or more possible units give no unit |
| Units.BareUnitId | src/mireport/enhanced_jsonprocessor.py:604-646 | a bare UTR unit id gives its unit |
| Units.PrefixedUnitId | src/mireport/enhanced_jsonprocessor.py:613-646 | `prefix:id`, where only the id is a UTR unit id, gives that unit |
| Units.RepeatedUnitIsAmbiguous | src/mireport/enhanced_jsonprocessor.py:608-655 | `(g)(g)`, with `g` a unit id, is ambiguous, because the same unit is found twice |
| Units.FirstComplex | src/mireport/enhanced_jsonprocessor.py:698-703 | the measures of the first unit id that has configured measures, and none exactly when no id has any |
| Units.SetFallbackUnitForName | src/mireport/enhanced_jsonprocessor.py:708-737 | no unit exactly for a non-numeric concept; a valid configured data-type unit wins; otherwise a unit the UTR lists for the data type when it lists one, and `xbrli:pure` when it lists none |
| Units.SetUnitForName | src/mireport/enhanced_jsonprocessor.py:657-706 | the priority chain: a valid explicit unit wins; otherwise a configured concept unit the UTR accepts; otherwise, when the concept requires units, the one required unit if there is exactly one and no unit for any other number; otherwise, without required units, the measures of the first UTR unit id with configured measures, and failing that the fallback |
| Units.ChosenUnitIsForTheDataType | src/mireport/enhanced_jsonprocessor.py:657-737 | every simple unit chosen is valid for, or listed by the UTR for, the concept's data type, or `xbrli:pure` when the UTR lists none |
| Units.NumericConceptGetsUnit | src/mireport/enhanced_jsonprocessor.py:697-737 | a numeric concept without required units always gets a unit |
| EnhancedJson.ConceptsToText | src/mireport/enhanced_jsonprocessor.py:48-50 | no concepts give the empty text; `EnhancedJson.ConceptsToTextOrderFree` and `EnhancedJson.ConceptsToTextOne` carry its order independence and its single-concept case |
| EnhancedJson.ConceptsToTextOrderFree | src/mireport/enhanced_jsonprocessor.py:48-50 | `conceptsToText` does not depend on the order the collection is walked |
| EnhancedJson.ConceptsToTextOne | src/mireport/enhanced_jsonprocessor.py:48-50 | one concept is named by its name alone |
| EnhancedJson.JsonProcessor.constructor | src/mireport/enhanced_jsonprocessor.py:95-128 | a processor starts with no named ranges recorded and none unused |
| EnhancedJson.JsonProcessor.RecordNamedRanges | src/mireport/enhanced_jsonprocessor.py:445-451 | the JSON's named ranges, or none when absent, are recorded; the tracked ones, meaning non-empty and not `enum_` or `template_`, join the unused set |
| EnhancedJson.UnsetReports | src/mireport/enhanced_jsonprocessor.py:781-789 | each report names a non-empty set of missing dimensions, at most one per holder |
| EnhancedJson.UnsetReported | src/mireport/enhanced_jsonprocessor.py:773-789 | a name is reported with a set of dimensions exactly when that set is non-empty and its holder leaves exactly those unset |
| EnhancedJson.CheckSplits | src/mireport/enhanced_jsonprocessor.py:773-789 | the check splits the holders into those kept and those reported |
| EnhancedJson.DropUnsetDimensions | src/mireport/enhanced_jsonprocessor.py:767-789 | the loop keeps the reportable holders that set every required dimension, and reports the others with their missing dimensions |
| EnhancedJson.ReportableExactly | src/mireport/enhanced_jsonprocessor.py:767-771 | a holder is considered exactly when its concept is reportable |
| EnhancedJson.DimensionsSetExactly | src/mireport/enhanced_jsonprocessor.py:775-781 | a holder passes exactly when it leaves no required dimension unset |
| EnhancedJson.KeptExactly | src/mireport/enhanced_jsonprocessor.py:767-789 | a holder goes on to become a fact exactly when it is reportable and sets every required dimension |
| EnhancedJson.DroppedExactly | src/mireport/enhanced_jsonprocessor.py:775-789 | a reportable holder that leaves a dimension unset is dropped and reported with exactly its missing dimensions |
| EnhancedJson.DefaultsNeverMissing | src/mireport/enhanced_jsonprocessor.py:777-779 | a required dimension with a default is never missing |
| EnhancedJson.SplitEEValue | src/mireport/enhanced_jsonprocessor.py:899-906 | a list gives its non-null items; a string gives non-empty stripped pieces free of commas; another value gives its text, or nothing for null |
| EnhancedJson.SplitTextKeeps | src/mireport/enhanced_jsonprocessor.py:904 | every non-blank comma-separated piece is kept, stripped |
| EnhancedJson.SplitOneText | src/mireport/enhanced_jsonprocessor.py:904 | a string without a comma gives its stripped self, or nothing when blank |
| EnhancedJson.NacePrefixDropped | src/mireport/enhanced_jsonprocessor.py:916-919 | "NACE " followed by a code looks up the code |
| EnhancedJson.LookupMember | src/mireport/enhanced_jsonprocessor.py:921-927 | the configured label is tried only when the direct lookup found nothing; a member found is the only candidate for the label or for its configured replacement |
| EnhancedJson.Collect | src/mireport/enhanced_jsonprocessor.py:908-945 | the member loop only grows the members and processed values, adds at most one member per value processed, and has a member once it has processed a value |
| EnhancedJson.CollectDistinct | src/mireport/enhanced_jsonprocessor.py:908-931 | the members collected are distinct, as in a set |
| EnhancedJson.CollectKept | src/mireport/enhanced_jsonprocessor.py:911-930 | every processed value is one of the values and not one treated as none |
| EnhancedJson.CollectFound | src/mireport/enhanced_jsonprocessor.py:916-931 | every member collected was found for one of the values |
| EnhancedJson.CollectError | src/mireport/enhanced_jsonprocessor.py:921-927 | a lookup error is raised for one of the values |
| EnhancedJson.CollectProcessed | src/mireport/enhanced_jsonprocessor.py:908-931 | the processed values are exactly the values that are not treated as none and whose label names a member, in input order |
| EnhancedJson.CollectMembers | src/mireport/enhanced_jsonprocessor.py:908-931 | every member named by a value that is not treated as none is in the collected set |
| EnhancedJson.CollectOk | src/mireport/enhanced_jsonprocessor.py:911-931 | when no lookup of a value that is not treated as none fails, the loop completes |
| EnhancedJson.HiddenValueOrderFree | src/mireport/enhanced_jsonprocessor.py:956 | the hidden value, being sorted, does not depend on the order members were collected |
| EnhancedJson.HiddenValueOne | src/mireport/enhanced_jsonprocessor.py:956 | the hidden value of one member is its expanded name |
| EnhancedJson.EESetFact | src/mireport/enhanced_jsonprocessor.py:894-958 | an error comes from looking up one of the values, and there is none when every lookup succeeds; no fact exactly when no value names a member; a fact's value is the naming values, in order, one per line, and its hidden value and value are non-empty |
| EnhancedJson.EESetFactMembers | src/mireport/enhanced_jsonprocessor.py:908-958 | a fact's hidden value is that of a non-empty set of distinct members, which holds a member exactly when one of the values (not treated as none) names it |
| EnhancedJson.CreateEESetFact | src/mireport/enhanced_jsonprocessor.py:894-958 | the method, with its member loop, computes the fact of the specification |
| EnhancedJson.NoMemberNoFact | src/mireport/enhanced_jsonprocessor.py:947-953 | when no value names a member, no fact is created |
| EnhancedJson.CollectOne | src/mireport/enhanced_jsonprocessor.py:911-931 | one value naming one member collects exactly that member and that value |
| EnhancedJson.OneMemberFact | src/mireport/enhanced_jsonprocessor.py:899-958 | a string naming one member gives the fact whose hidden value is that member's expanded name and whose value is the stripped string |
| WebApp.Decompose | src/mireport/webapp.py:193-195 | the days, hours, minutes and seconds add back to the total; hours are below 24 and minutes and seconds below 60; days are non-negative for a non-negative total |
| WebApp.PartIf | src/mireport/webapp.py:203-210 | a zero amount gives no part |
| WebApp.RenderPartIf | src/mireport/webapp.py:197-210 | a non-zero amount adds its pluralised text at the end |
| WebApp.FormatTimedelta | src/mireport/webapp.py:189-212 | the method joins, with single spaces, the rendered non-zero parts of the decomposition, in order |
| WebApp.ValueAppend | src/mireport/webapp.py:189-212 | the seconds of a concatenation of parts add up |
| WebApp.PartsValue | src/mireport/webapp.py:193-210 | the parts kept add back to the total |
| WebApp.FormatReadsBack | src/mireport/webapp.py:189-212 | the text reads back, word pair by word pair, as the total number of seconds, so no information is lost |
| WebApp.EmptyIffZero | src/mireport/webapp.py:189-212 | the text is empty exactly for zero seconds |

## Left out

- The XBRL processing around the core is not part of this model. That covers Arelle, the report and fact builders, the inline report, the messages and their severities, and the warnings.
- `getRequiredUnitQNames`: the three regular-expression scans (QNames between square brackets, the QName pattern, bare NCNames between delimiters) are given as inputs rather than computed. `asQName` is the label read as a QName, when it is one. `recognised` is the set of units those scans find.
- Labels.RequiredUnitQNames: the order in which `valid` is built is not modelled, because the source returns it as a frozenset.
- The QName maker is not part of this model: no QName parsing, no `BrokenQNameException`, no bootstrap prefixes. QNames arrive parsed, and `str(qname)` is the taxonomy's prefix followed by the local name.
- QNames.QNameText: when no prefix is bound to the namespace, the model renders the local name alone. That branch is a choice of the model, since the QName class is not part of it; the contract claims only that the text ends with the local name.
- The UTR is not part of this model. It appears as tables answering `getQNameForUnitId`, `getUnitsForDataType`, `getUnitIdsForDataType` and `valid`.
- JSON loading and file I/O are left out. Concept and cube details arrive as datatypes whose absent members are `None`.
- `str()` of an arbitrary JSON value is given as data.
- StringUtil.FormatBytes: the float branch (1 GiB and over) is not modelled, because the model has no floating point; the result is `None` there.
- StringUtil.FormatTimeNs: the same applies to the float branches from one second on.
- FileSupport.FilelikeAndFileName.Describe: `None` from 1 GiB on, for the same reason.
- `fileLike`, `saveToFilepath`, `saveToDirectory` and `as_data_url` are left out: they are file-system and image I/O.
- Text.Lower and Text.Upper map ASCII letters only. For the reserved file names this agrees with Python, because no non-ASCII character upper-cases into the letters of those names. Elsewhere the model differs from Python for non-ASCII letters:
  - the lower-cased pretend-label key built in `Taxonomies.PretendKeys` (taxonomy.py:617-622) keeps upper-case non-ASCII letters;
  - the last, case-insensitive stage of `getConceptForLabel` (taxonomy.py:745-748) lower-cases the query the same way. A concept labelled "émissions [tCO2e]" queried as "ÉMISSIONS" is found by the source, because Python lower-cases É to é; the model keeps É and finds no concept, so `TaxonomyFacts.ConceptForLabelBuilt` then describes an empty result;
  - the language tags lower-cased in `Labels` and `Localise` (taxonomy.py:191 and 900-903, localise.py:187) keep non-ASCII capitals, which real BCP 47 tags do not contain.
- FileSupport.IsWordChar: Python's `\w` on a `str` pattern also accepts the letters, digits and marks beyond ASCII that the Unicode database classes as alphanumeric. The model takes that set as a parameter (`wide`) instead of computing it. It is exact for ASCII, and it never contains whitespace.
- Text.Strip and Text.SplitWhitespace use the whitespace of `str.isspace()` as listed in Text.IsSpace. Unicode normalisation and case folding are not modelled.
- Concepts are identified by their QName, as the source's `__eq__` and `__hash__` do. The input concept dictionary is a list, and its string keys are taken to be the concepts' own QNames.
- `_reifyUsingTaxonomy` returns a reified copy instead of setting `_taxonomy`; the back-reference from a concept to its taxonomy is not kept.
- A construction that fails part-way leaves no partly reified concepts behind in the model; in the source, concepts reified before the failure keep their `_taxonomy`.
- The open-hypercube warning of the constructor is not modelled. Open hypercubes are collected in `openHypercubes` but produce no message.
- `dimensions.pop("_defaults")` and the `cubeDetails.pop(...)` calls of taxonomy.py:650-681 mutate the caller's dictionaries; the model reads the defaults as a separate member and each cube's members as fields of an immutable value.
- `createSimpleFacts` is modelled only up to the unset-dimension check. Facts, periods, decimals and values are not built.
- The preset dimensions, keyed by holder in the source, are carried in each holder.
- EnhancedJson.DropUnsetDimensions: a dropped holder is not removed from `_definedNameToXBRLMap`, as in the source. Only the `reportable` copy is modelled.
- `_recordNamedRanges` records only the names of the named ranges, not their cell references.
- `createEESetFact`: the member set is a list without repeats. The proved order-independence of the hidden value stands for the source's set. Warnings about workarounds are not modelled.
- WebApp.FormatTimedelta takes the whole number of seconds. The truncation `int(td.total_seconds())` and the `timedelta` type are left out.
- The rest of `webapp.py` is not part of this model: Flask routes, sessions and uploads. The same goes for `jsonprocessor.py`, for the Babel-based parts of `localise.py`, and for the scripts.
- Caches (`functools.cache`) are left out; they do not change results.
