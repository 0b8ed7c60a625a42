/** File-name checks and the zip-safe name builder. */
module FileSupport {
  import opened Wrappers
  import opened Text
  import StringUtil

  /** Windows device names that may not be used as a file name, in upper case. */
  const ReservedNames: set<string> :=
    {"CON", "AUX", "NUL", "PRN",
     "COM1", "COM2", "COM3", "COM4", "COM5", "COM6", "COM7", "COM8", "COM9",
     "LPT1", "LPT2", "LPT3", "LPT4", "LPT5", "LPT6", "LPT7", "LPT8", "LPT9"}

  /** The characters `FILE_UNWANTED_RE` refuses. */
  predicate IsFileUnwanted(c: char) {
    c in {'<', '>', ':', '"', '/', '\\', '|', '?', '*'}
  }

  /** `is_valid_filename`: not a dot name, not a reserved device name in any case, no refused character. */
  function IsValidFilename(filename: string): (r: bool)
    ensures r <==>
      && filename != "." && filename != ".."
      && Upper(filename) !in ReservedNames
      && forall i :: 0 <= i < |filename| ==> !IsFileUnwanted(filename[i])
  {
    if filename == "." || filename == ".." then false
    else if Upper(filename) in ReservedNames then false
    else if exists i :: 0 <= i < |filename| && IsFileUnwanted(filename[i]) then false
    else true
  }

  /**
   * Python's `\w` on a `str` pattern: the ASCII letters, digits and `_`, and
   * beyond ASCII the characters the Unicode database counts as alphanumeric.
   * Those are given as `wide`; whitespace is never one of them.
   */
  predicate IsWordChar(wide: set<char>, c: char) {
    || ('a' <= c <= 'z') || ('A' <= c <= 'Z') || ('0' <= c <= '9') || c == '_'
    || (c >= '\U{80}' && c in wide && !IsSpace(c))
  }

  /** A character matched by `[\w.]`. */
  predicate IsZipChar(wide: set<char>, c: char) {
    IsWordChar(wide, c) || c == '.'
  }

  predicate AllZipChars(wide: set<char>, s: string) {
    forall i :: 0 <= i < |s| ==> IsZipChar(wide, s[i])
  }

  /** A run of characters `[^\w.]` matches. */
  predicate NoZipChars(wide: set<char>, s: string) {
    forall i :: 0 <= i < |s| ==> !IsZipChar(wide, s[i])
  }

  /** Where a match of `[^\w.]+` must stop: at the end or before a character of `[\w.]`. */
  predicate StartsZip(wide: set<char>, s: string) {
    s == [] || IsZipChar(wide, s[0])
  }

  /** Drops the leading run of characters outside `[\w.]`. */
  function DropUnwanted(wide: set<char>, s: string): (r: string)
    ensures |r| <= |s| && r == s[|s| - |r|..]
    ensures StartsZip(wide, r)
    ensures NoZipChars(wide, s[..|s| - |r|])
  {
    if s == [] || IsZipChar(wide, s[0]) then s else DropUnwanted(wide, s[1..])
  }

  /** `ZIP_UNWANTED_RE.sub("_", s)`: every maximal run outside `[\w.]` becomes one underscore. */
  function SubUnwanted(wide: set<char>, s: string): (r: string)
    ensures AllZipChars(wide, r)
    ensures |r| <= |s|
    ensures s == [] <==> r == []
  {
    if s == [] then []
    else if IsZipChar(wide, s[0]) then [s[0]] + SubUnwanted(wide, s[1..])
    else "_" + SubUnwanted(wide, DropUnwanted(wide, s[1..]))
  }

  /** A string made only of `[\w.]` characters comes through the substitution unchanged. */
  lemma {:induction false} SubUnwantedKeeps(wide: set<char>, s: string)
    requires AllZipChars(wide, s)
    ensures SubUnwanted(wide, s) == s
  {
    if s != [] {
      SubUnwantedKeeps(wide, s[1..]);
    }
  }

  lemma SubUnwantedCons(wide: set<char>, c: char, t: string)
    requires IsZipChar(wide, c)
    ensures SubUnwanted(wide, [c] + t) == [c] + SubUnwanted(wide, t)
  {
    assert ([c] + t)[1..] == t;
  }

  /** Characters of `[\w.]` are copied in order, and the substitution goes on after them. */
  lemma {:induction false} SubUnwantedWord(wide: set<char>, w: string, rest: string)
    requires AllZipChars(wide, w)
    ensures SubUnwanted(wide, w + rest) == w + SubUnwanted(wide, rest)
  {
    if w != [] {
      assert AllZipChars(wide, w[1..]) by {
        forall i | 0 <= i < |w[1..]| ensures IsZipChar(wide, w[1..][i]) {
          assert w[1..][i] == w[i + 1];
        }
      }
      SubUnwantedWord(wide, w[1..], rest);
      SubUnwantedCons(wide, w[0], w[1..] + rest);
      assert w + rest == [w[0]] + (w[1..] + rest);
      assert w == [w[0]] + w[1..];
    } else {
      assert w + rest == rest;
    }
  }

  lemma {:induction false} DropUnwantedRun(wide: set<char>, u: string, rest: string)
    requires NoZipChars(wide, u) && StartsZip(wide, rest)
    ensures DropUnwanted(wide, u + rest) == rest
  {
    if u != [] {
      assert (u + rest)[1..] == u[1..] + rest;
      DropUnwantedRun(wide, u[1..], rest);
    }
  }

  /** A whole run of characters outside `[\w.]` becomes one underscore. */
  lemma SubUnwantedRun(wide: set<char>, u: string, rest: string)
    requires u != [] && NoZipChars(wide, u) && StartsZip(wide, rest)
    ensures SubUnwanted(wide, u + rest) == "_" + SubUnwanted(wide, rest)
  {
    assert (u + rest)[1..] == u[1..] + rest;
    DropUnwantedRun(wide, u[1..], rest);
  }

  /**
   * The substitution, one match at a time: the zip characters before a
   * match are kept, the whole match becomes one underscore, and the
   * substitution goes on after the match.
   */
  lemma SubUnwantedReplacesRun(wide: set<char>, w: string, u: string, rest: string)
    requires AllZipChars(wide, w) && u != [] && NoZipChars(wide, u) && StartsZip(wide, rest)
    ensures SubUnwanted(wide, w + u + rest) == w + "_" + SubUnwanted(wide, rest)
  {
    assert w + u + rest == w + (u + rest);
    SubUnwantedWord(wide, w, u + rest);
    SubUnwantedRun(wide, u, rest);
  }

  /** `"_".join(original.split())`, then the substitution; an empty or invalid result gives the fallback. */
  function ZipSafeString(wide: set<char>, original: string, fallback: string): (r: string)
    ensures r == fallback || (r != [] && AllZipChars(wide, r) && IsValidFilename(r))
    ensures r != fallback ==> r == SubUnwanted(wide, Join("_", SplitWhitespace(original)))
    ensures SubUnwanted(wide, Join("_", SplitWhitespace(original))) != [] &&
            IsValidFilename(SubUnwanted(wide, Join("_", SplitWhitespace(original))))
            ==> r == SubUnwanted(wide, Join("_", SplitWhitespace(original)))
    ensures !(SubUnwanted(wide, Join("_", SplitWhitespace(original))) != [] &&
              IsValidFilename(SubUnwanted(wide, Join("_", SplitWhitespace(original)))))
            ==> r == fallback
    ensures SplitWhitespace(original) == [] ==> r == fallback
  {
    var joined := Join("_", SplitWhitespace(original));
    var cleaned := SubUnwanted(wide, joined);
    if !(cleaned != [] && IsValidFilename(cleaned)) then fallback else cleaned
  }

  lemma ZipCharsAreNotSpace(wide: set<char>, s: string)
    requires AllZipChars(wide, s)
    ensures forall i :: 0 <= i < |s| ==> !IsSpace(s[i])
  {
  }

  /** A name that is already zip safe and valid is returned as it is, whatever the fallback. */
  lemma ZipSafeKeeps(wide: set<char>, s: string, fallback: string)
    requires s != [] && AllZipChars(wide, s) && IsValidFilename(s)
    ensures ZipSafeString(wide, s, fallback) == s
  {
    ZipCharsAreNotSpace(wide, s);
    SplitWhitespaceWord(s);
    SubUnwantedKeeps(wide, s);
  }

  /** Making a name zip safe twice is making it zip safe once, unless the fallback was used. */
  lemma ZipSafeIdempotent(wide: set<char>, original: string, fallback: string, fallback2: string)
    requires ZipSafeString(wide, original, fallback) != fallback
    ensures ZipSafeString(wide, ZipSafeString(wide, original, fallback), fallback2) == ZipSafeString(wide, original, fallback)
  {
    ZipSafeKeeps(wide, ZipSafeString(wide, original, fallback), fallback2);
  }

  /** Interior words are not empty; the first and the last may be. */
  predicate InteriorNonEmpty(words: seq<string>) {
    forall i :: 0 < i < |words| - 1 ==> words[i] != []
  }

  lemma SeparatedStartsZip(wide: set<char>, words: seq<string>, seps: seq<string>)
    requires |words| == |seps| + 1 && words[0] != [] && AllZipChars(wide, words[0])
    ensures StartsZip(wide, Separated(words, seps))
  {
    if |words| > 1 {
      assert Separated(words, seps)[0] == words[0][0];
    }
  }

  /**
   * The substitution on any text, cut into runs: the zip words are kept in
   * order, and each run outside `[\w.]` between them becomes exactly one
   * underscore, at the start and at the end too.
   */
  lemma {:induction false} SubUnwantedSeparated(wide: set<char>, words: seq<string>, seps: seq<string>)
    requires |words| == |seps| + 1 && InteriorNonEmpty(words)
    requires forall w :: w in words ==> AllZipChars(wide, w)
    requires forall u :: u in seps ==> u != [] && NoZipChars(wide, u)
    ensures SubUnwanted(wide, Separated(words, seps)) == Join("_", words)
  {
    assert words[0] in words;
    if |words| == 1 {
      SubUnwantedKeeps(wide, words[0]);
    } else {
      assert seps[0] in seps;
      assert forall w :: w in words[1..] ==> w in words;
      assert forall u :: u in seps[1..] ==> u in seps;
      assert InteriorNonEmpty(words[1..]) by {
        forall i | 0 < i < |words[1..]| - 1 ensures words[1..][i] != [] {
          assert words[1..][i] == words[i + 1];
        }
      }
      assert |words[1..]| > 1 ==> words[1..][0] != [] by {
        if |words[1..]| > 1 { assert words[1..][0] == words[1]; }
      }
      var rest := Separated(words[1..], seps[1..]);
      assert StartsZip(wide, rest) by {
        assert words[1] in words;
        if |words[1..]| == 1 {
          assert rest == words[1];
        } else {
          SeparatedStartsZip(wide, words[1..], seps[1..]);
        }
      }
      SubUnwantedReplacesRun(wide, words[0], seps[0], rest);
      SubUnwantedSeparated(wide, words[1..], seps[1..]);
    }
  }

  lemma {:induction false} JoinZipChars(wide: set<char>, words: seq<string>)
    requires forall w :: w in words ==> AllZipChars(wide, w)
    ensures AllZipChars(wide, Join("_", words))
  {
    if |words| > 1 {
      assert words[0] in words;
      assert forall w :: w in words[1..] ==> w in words;
      JoinZipChars(wide, words[1..]);
    }
  }

  /** Non-empty zip words with a whitespace run between each two. */
  predicate SpaceSeparated(wide: set<char>, words: seq<string>, seps: seq<string>) {
    && |words| == |seps| + 1
    && (forall i :: 0 <= i < |words| ==> words[i] != [] && AllZipChars(wide, words[i]))
    && (forall i :: 0 <= i < |seps| ==> seps[i] != [] && forall j :: 0 <= j < |seps[i]| ==> IsSpace(seps[i][j]))
  }

  /** Zip words with a run of other, non-whitespace characters between each two. */
  predicate RunSeparated(wide: set<char>, words: seq<string>, seps: seq<string>) {
    && |words| == |seps| + 1 && |seps| >= 1 && InteriorNonEmpty(words)
    && (forall i :: 0 <= i < |words| ==> AllZipChars(wide, words[i]))
    && (forall i :: 0 <= i < |seps| ==> seps[i] != [] && NoZipChars(wide, seps[i]) && forall j :: 0 <= j < |seps[i]| ==> !IsSpace(seps[i][j]))
  }

  /**
   * Each whitespace run becomes one underscore: zip words separated by
   * whitespace runs give the words joined by underscores, or the fallback
   * when that is no valid name.
   */
  lemma ZipSafeSpaces(wide: set<char>, words: seq<string>, seps: seq<string>, fallback: string)
    requires SpaceSeparated(wide, words, seps)
    ensures ZipSafeString(wide, Separated(words, seps), fallback)
         == if IsValidFilename(Join("_", words)) then Join("_", words) else fallback
    ensures |Join("_", words)| > 4 ==> ZipSafeString(wide, Separated(words, seps), fallback) == Join("_", words)
  {
    forall w | w in words ensures IsWord(w) {
      ZipCharsAreNotSpace(wide, w);
    }
    SplitWhitespaceSeparated(words, seps);
    JoinZipChars(wide, words);
    SubUnwantedKeeps(wide, Join("_", words));
    assert words[0] in words;
    JoinNonEmpty("_", words);
    if |Join("_", words)| > 4 {
      LongZipNameValid(wide, Join("_", words));
    }
  }

  lemma {:induction false} SeparatedNoSpace(wide: set<char>, words: seq<string>, seps: seq<string>)
    requires |words| == |seps| + 1
    requires forall w :: w in words ==> AllZipChars(wide, w)
    requires forall u :: u in seps ==> forall i :: 0 <= i < |u| ==> !IsSpace(u[i])
    ensures forall i :: 0 <= i < |Separated(words, seps)| ==> !IsSpace(Separated(words, seps)[i])
  {
    assert words[0] in words;
    ZipCharsAreNotSpace(wide, words[0]);
    if |words| > 1 {
      assert seps[0] in seps;
      assert forall w :: w in words[1..] ==> w in words;
      assert forall u :: u in seps[1..] ==> u in seps;
      SeparatedNoSpace(wide, words[1..], seps[1..]);
    }
  }

  /**
   * A name without whitespace, cut into zip words and runs of other
   * characters: each run becomes one underscore, and the result is kept
   * when it is a valid name.
   */
  lemma ZipSafeRuns(wide: set<char>, words: seq<string>, seps: seq<string>, fallback: string)
    requires RunSeparated(wide, words, seps)
    ensures ZipSafeString(wide, Separated(words, seps), fallback)
         == if IsValidFilename(Join("_", words)) then Join("_", words) else fallback
    ensures |Join("_", words)| > 4 ==> ZipSafeString(wide, Separated(words, seps), fallback) == Join("_", words)
  {
    var s := Separated(words, seps);
    assert seps[0] in seps;
    assert s == words[0] + seps[0] + Separated(words[1..], seps[1..]);
    SeparatedNoSpace(wide, words, seps);
    SplitWhitespaceWord(s);
    SubUnwantedSeparated(wide, words, seps);
    assert Join("_", words) == words[0] + "_" + Join("_", words[1..]);
    JoinZipChars(wide, words);
    if |Join("_", words)| > 4 {
      LongZipNameValid(wide, Join("_", words));
    }
  }

  /** Reserved device names are refused in any letter case, and so are the dot names. */
  lemma ReservedNameExamples()
    ensures !IsValidFilename(".") && !IsValidFilename("..")
    ensures !IsValidFilename("CON") && !IsValidFilename("con") && !IsValidFilename("AuX")
    ensures !IsValidFilename("com7") && !IsValidFilename("Lpt1")
  {
    assert Upper("CON") == "CON";
    assert Upper("con") == "CON";
    assert Upper("AuX") == "AUX";
    assert Upper("com7") == "COM7";
    assert Upper("Lpt1") == "LPT1";
  }

  /** Names with a refused character are invalid; ordinary names are valid. */
  lemma CharacterExamples()
    ensures !IsValidFilename("my|file.txt") && !IsValidFilename("bad:file")
  {
    assert "my|file.txt"[2] == '|';
    assert "bad:file"[3] == ':';
  }

  /** Names with dots and letters only are valid. */
  lemma PlainNameExamples()
    ensures IsValidFilename("test.txt") && IsValidFilename("file.name.ext")
  {
    assert Upper("test.txt") == "TEST.TXT";
    assert Upper("file.name.ext") == "FILE.NAME.EXT";
  }

  /** A single word of `[\w.]` characters is kept when valid and falls back otherwise. */
  lemma ZipSafeWord(wide: set<char>, w: string, fallback: string)
    requires w != [] && AllZipChars(wide, w)
    ensures ZipSafeString(wide, w, fallback) == if IsValidFilename(w) then w else fallback
  {
    ZipCharsAreNotSpace(wide, w);
    SplitWhitespaceWord(w);
    SubUnwantedKeeps(wide, w);
  }

  /** A name made of whitespace only falls back. */
  lemma ZipSafeBlank(wide: set<char>, s: string, fallback: string)
    requires forall i :: 0 <= i < |s| ==> IsSpace(s[i])
    ensures ZipSafeString(wide, s, fallback) == fallback
  {
    assert TrimStart(s) == [];
    assert SplitWhitespace(s) == [];
  }

  /** A zip-safe name longer than any reserved device name is a valid file name. */
  lemma LongZipNameValid(wide: set<char>, s: string)
    requires |s| > 4 && AllZipChars(wide, s)
    ensures IsValidFilename(s)
  {
    assert |Upper(s)| == |s|;
  }

  /** `zipSafeString("good filename.txt")` is "good_filename.txt". */
  lemma ZipSafeGoodFilename(wide: set<char>, s: string)
    requires s == "good filename.txt"
    ensures ZipSafeString(wide, s, "fallback") == "good_filename.txt"
  {
    GoodFilenameParts(wide);
    GoodFilenameText();
    GoodFilenameJoined();
    ZipSafeSpaces(wide, ["good", "filename.txt"], [" "], "fallback");
  }

  lemma GoodFilenameParts(wide: set<char>)
    ensures SpaceSeparated(wide, ["good", "filename.txt"], [" "])
  {
  }

  lemma GoodFilenameText()
    ensures Separated(["good", "filename.txt"], [" "]) == "good filename.txt"
  {
  }

  lemma GoodFilenameJoined()
    ensures Join("_", ["good", "filename.txt"]) == "good_filename.txt"
  {
  }

  /** `zipSafeString("some    file   name.txt")` is "some_file_name.txt". */
  lemma ZipSafeSomeFileName(wide: set<char>, s: string)
    requires s == "some    file   name.txt"
    ensures ZipSafeString(wide, s, "fallback") == "some_file_name.txt"
  {
    SomeFileNameParts(wide);
    SomeFileNameText();
    SomeFileNameJoined();
    ZipSafeSpaces(wide, ["some", "file", "name.txt"], ["    ", "   "], "fallback");
  }

  lemma SomeFileNameParts(wide: set<char>)
    ensures SpaceSeparated(wide, ["some", "file", "name.txt"], ["    ", "   "])
  {
  }

  lemma SomeFileNameText()
    ensures Separated(["some", "file", "name.txt"], ["    ", "   "]) == "some    file   name.txt"
  {
  }

  lemma SomeFileNameJoined()
    ensures Join("_", ["some", "file", "name.txt"]) == "some_file_name.txt"
  {
  }

  /** `zipSafeString("bad/file:name*here.txt")` is "bad_file_name_here.txt". */
  lemma ZipSafeBadFileName(wide: set<char>, s: string)
    requires s == "bad/file:name*here.txt"
    ensures ZipSafeString(wide, s, "fallback") == "bad_file_name_here.txt"
  {
    BadFileNameParts(wide);
    BadFileNameText();
    BadFileNameJoined();
    ZipSafeRuns(wide, ["bad", "file", "name", "here.txt"], ["/", ":", "*"], "fallback");
  }

  lemma BadFileNameParts(wide: set<char>)
    ensures RunSeparated(wide, ["bad", "file", "name", "here.txt"], ["/", ":", "*"])
  {
  }

  lemma BadFileNameText()
    ensures Separated(["bad", "file", "name", "here.txt"], ["/", ":", "*"]) == "bad/file:name*here.txt"
  {
  }

  lemma BadFileNameJoined()
    ensures Join("_", ["bad", "file", "name", "here.txt"]) == "bad_file_name_here.txt"
  {
  }

  /** `zipSafeString("weird#name?.ext")` is "weird_name_.ext". */
  lemma ZipSafeWeirdName(wide: set<char>, s: string)
    requires s == "weird#name?.ext"
    ensures ZipSafeString(wide, s, "fallback") == "weird_name_.ext"
  {
    WeirdNameParts(wide);
    WeirdNameText();
    WeirdNameJoined();
    ZipSafeRuns(wide, ["weird", "name", ".ext"], ["#", "?"], "fallback");
  }

  lemma WeirdNameParts(wide: set<char>)
    ensures RunSeparated(wide, ["weird", "name", ".ext"], ["#", "?"])
  {
  }

  lemma WeirdNameText()
    ensures Separated(["weird", "name", ".ext"], ["#", "?"]) == "weird#name?.ext"
  {
  }

  lemma WeirdNameJoined()
    ensures Join("_", ["weird", "name", ".ext"]) == "weird_name_.ext"
  {
  }

  /** A reserved name gives the fallback, whichever it is. */
  lemma ZipSafeReservedFallback(wide: set<char>, s: string, fallback: string)
    requires s == "CON"
    ensures ZipSafeString(wide, s, fallback) == fallback
  {
    assert Upper(s) == "CON";
    ZipSafeWord(wide, s, fallback);
  }

  /** An empty name gives the fallback. */
  lemma ZipSafeEmptyFallback(wide: set<char>, s: string)
    requires s == ""
    ensures ZipSafeString(wide, s, "fallback") == "fallback"
  {
    ZipSafeBlank(wide, s, "fallback");
  }

  /** `zipSafeString("normal_name.doc")` keeps the name. */
  lemma ZipSafeNormalName(wide: set<char>, s: string)
    requires s == "normal_name.doc"
    ensures ZipSafeString(wide, s, "fallback") == "normal_name.doc"
  {
    LongZipNameValid(wide, s);
    ZipSafeWord(wide, s, "fallback");
  }

  /** A letter beyond ASCII that `\w` accepts is kept, where an ASCII-only reading would replace it. */
  lemma ZipSafeKeepsAccents(wide: set<char>, s: string)
    requires '\U{E9}' in wide && s == "caf\U{E9}.txt"
    ensures ZipSafeString(wide, s, "fallback") == "caf\U{E9}.txt"
  {
    LongZipNameValid(wide, s);
    ZipSafeWord(wide, s, "fallback");
  }

  /** An uploaded file: its bytes and its name. */
  datatype FilelikeAndFileName = FilelikeAndFileName(fileContent: seq<bv8>, filename: string)
  {
    /**
     * `__str__`: the quoted name followed by the size in brackets. From 1 GiB
     * up the size is a float and the text is not modelled (None).
     */
    function Describe(): (r: Option<string>)
      ensures r.Some? <==> |fileContent| < StringUtil.GiB
      ensures r.Some? ==> exists size :: StringUtil.FormatBytes(|fileContent|) == Some(size)
                                         && r.value == "\"" + filename + "\" [" + size + "]"
    {
      match StringUtil.FormatBytes(|fileContent|)
      case None => None
      case Some(size) => Some("\"" + filename + "\" [" + size + "]")
    }
  }

  /** Fourteen bytes named "example.doc" read as `"example.doc" [14 B]`; an empty file as `[0 B]`. */
  lemma DescribeExamples(content: seq<bv8>)
    requires |content| == 14
    ensures FilelikeAndFileName(content, "example.doc").Describe() == Some("\"example.doc\" [14 B]")
    ensures FilelikeAndFileName([], "empty.txt").Describe() == Some("\"empty.txt\" [0 B]")
  {
    assert IntToString(14) + " " + "B" == "14 B";
    assert IntToString(0) + " " + "B" == "0 B";
    assert StringUtil.FormatBytes(14) == Some("14 B");
    assert StringUtil.FormatBytes(0) == Some("0 B");
    assert "\"" + "example.doc" + "\" [" + "14 B" + "]" == "\"example.doc\" [14 B]";
    assert "\"" + "empty.txt" + "\" [" + "0 B" + "]" == "\"empty.txt\" [0 B]";
  }
}
