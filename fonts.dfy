/** The language table of `txt_to_pdf_multilang` and the search for the font
    file a language needs. The filesystem is the set of paths that exist, as
    the process sees them; paths are POSIX paths. */
module Fonts {
  import opened Wrappers
  import opened Text

  /** The languages of the table. */
  datatype Language = Hindi | English | Tamil | Bengali | Gujarati | Telugu | Kannada | Malayalam | Punjabi

  /** One entry of the language table: the font file looked for, the name it
      is registered under, and whether it must be found and registered. */
  datatype FontProfile = FontProfile(defaultFont: string, fontName: string, requiresSpecialFont: bool)

  /** The table keys, in the table's order. */
  const Languages: seq<string> :=
    ["hindi", "english", "tamil", "bengali", "gujarati", "telugu", "kannada", "malayalam", "punjabi"]

  /** The key a language is listed under. */
  function Key(l: Language): string {
    match l
    case Hindi => "hindi"
    case English => "english"
    case Tamil => "tamil"
    case Bengali => "bengali"
    case Gujarati => "gujarati"
    case Telugu => "telugu"
    case Kannada => "kannada"
    case Malayalam => "malayalam"
    case Punjabi => "punjabi"
  }

  /** Where a language's key stands in the table. */
  function Index(l: Language): (i: nat)
    ensures i < |Languages| && Languages[i] == Key(l)
  {
    match l
    case Hindi => 0
    case English => 1
    case Tamil => 2
    case Bengali => 3
    case Gujarati => 4
    case Telugu => 5
    case Kannada => 6
    case Malayalam => 7
    case Punjabi => 8
  }

  /** `key in LANGUAGE_FONTS`, answered with the language the key names. */
  function Lookup(key: string): (r: Option<Language>)
    ensures r.Some? ==> Key(r.value) == key
    ensures r.None? ==> forall l: Language :: Key(l) != key
  {
    if key == "hindi" then Some(Hindi)
    else if key == "english" then Some(English)
    else if key == "tamil" then Some(Tamil)
    else if key == "bengali" then Some(Bengali)
    else if key == "gujarati" then Some(Gujarati)
    else if key == "telugu" then Some(Telugu)
    else if key == "kannada" then Some(Kannada)
    else if key == "malayalam" then Some(Malayalam)
    else if key == "punjabi" then Some(Punjabi)
    else None
  }

  /** A bare file name: one path component that names an entry, so neither
      empty, nor `.` or `..`, and without a directory part. */
  predicate IsFileName(s: string) {
    s != "" && '/' !in s && s != "." && s != ".."
  }

  /** The Noto Sans regular face of a script. */
  function NotoFont(script: string): string {
    "NotoSans" + script + "-Regular.ttf"
  }

  /** The table entry of a language. */
  function Profile(l: Language): (r: FontProfile)
    ensures r.requiresSpecialFont <==> l != English
  {
    match l
    case Hindi => FontProfile(NotoFont("Devanagari"), "Devanagari", true)
    case English => FontProfile("Helvetica", "Helvetica", false)
    case Tamil => FontProfile(NotoFont("Tamil"), "Tamil", true)
    case Bengali => FontProfile(NotoFont("Bengali"), "Bengali", true)
    case Gujarati => FontProfile(NotoFont("Gujarati"), "Gujarati", true)
    case Telugu => FontProfile(NotoFont("Telugu"), "Telugu", true)
    case Kannada => FontProfile(NotoFont("Kannada"), "Kannada", true)
    case Malayalam => FontProfile(NotoFont("Malayalam"), "Malayalam", true)
    case Punjabi => FontProfile(NotoFont("Gurmukhi"), "Punjabi", true)
  }

  lemma NotoFontName(script: string)
    requires '/' !in script
    ensures IsFileName(NotoFont(script))
  {
    assert '/' !in "NotoSans" && '/' !in "-Regular.ttf";
    assert |NotoFont(script)| > 2;
  }

  /** Every font the search looks for is a bare file name. */
  lemma DefaultFontIsFileName(l: Language)
    requires Profile(l).requiresSpecialFont
    ensures IsFileName(Profile(l).defaultFont)
  {
    match l
    case Hindi => NotoFontName("Devanagari");
    case Tamil => NotoFontName("Tamil");
    case Bengali => NotoFontName("Bengali");
    case Gujarati => NotoFontName("Gujarati");
    case Telugu => NotoFontName("Telugu");
    case Kannada => NotoFontName("Kannada");
    case Malayalam => NotoFontName("Malayalam");
    case Punjabi => NotoFontName("Gurmukhi");
  }

  /** `target_language.lower().strip()`. */
  function Normalize(language: string): string {
    Strip(Lower(language))
  }

  /** Normalising a normalised name changes nothing. */
  lemma NormalizeIdempotent(language: string)
    ensures Normalize(Normalize(language)) == Normalize(language)
  {
    var l := Lower(language);
    LowerLower(language);
    StripChars(l);
    LowerFixed(Strip(l));
    StripIdempotent(l);
  }

  /** A string of lower-case ASCII letters is its own normal form. */
  lemma NormalizePlain(s: string)
    requires forall i :: 0 <= i < |s| ==> 'a' <= s[i] <= 'z'
    ensures Normalize(s) == s
  {
    LowerFixed(s);
    if s != [] {
      assert !IsSpace(s[0]) && !IsSpace(s[|s| - 1]);
    }
  }

  /** Every table key is accepted as written. */
  lemma NormalizeKeys(l: Language)
    ensures Normalize(Key(l)) == Key(l)
    ensures Lookup(Normalize(Key(l))) == Some(l)
  {
    KeyLetters(l);
    NormalizePlain(Key(l));
    LookupKey(l);
  }

  lemma KeyLetters(l: Language)
    ensures forall i :: 0 <= i < |Key(l)| ==> 'a' <= Key(l)[i] <= 'z'
  {
  }

  lemma LookupKey(l: Language)
    ensures Lookup(Key(l)) == Some(l)
  {
  }

  /** The error for a language the table does not have. */
  function UnsupportedMessage(language: string): string {
    "Language '" + language + "' not supported. Supported languages: " + JoinWith(", ", Languages)
  }

  /** The rejection names the language and lists every supported key. */
  lemma UnsupportedListsAll(language: string)
    ensures forall k | k in Languages :: Contains(UnsupportedMessage(language), k)
    ensures language != "" ==> Contains(UnsupportedMessage(language), language)
  {
    forall k | k in Languages
      ensures Contains(UnsupportedMessage(language), k)
    {
      var i :| 0 <= i < |Languages| && Languages[i] == k;
      KeyListed(language, i);
    }
    if language != "" {
      LanguageNamed(language);
    }
  }

  /** The rejection names the language it rejects. */
  lemma {:induction false} LanguageNamed(language: string)
    requires language != ""
    ensures Contains(UnsupportedMessage(language), language)
  {
    var tail := "' not supported. Supported languages: " + JoinWith(", ", Languages);
    ContainsMiddle("Language '", language, tail);
    assert "Language '" + language + tail == UnsupportedMessage(language);
  }

  /** The `i`-th key of the table is in the rejection's list. */
  lemma {:induction false} KeyListed(language: string, i: nat)
    requires i < |Languages|
    ensures Contains(UnsupportedMessage(language), Languages[i])
  {
    var head := "Language '" + language + "' not supported. Supported languages: ";
    assert |Languages[i]| > 0;
    ListedAfter(head, ", ", Languages, i);
  }

  /** An element of a list joined after some text occurs in the result. */
  lemma {:induction false} ListedAfter(head: string, sep: string, xs: seq<string>, i: nat)
    requires i < |xs| && |xs[i]| > 0
    ensures Contains(head + JoinWith(sep, xs), xs[i])
  {
    JoinContains(sep, xs, i);
    ContainsWithin(head, JoinWith(sep, xs), "", xs[i]);
    assert head + JoinWith(sep, xs) + "" == head + JoinWith(sep, xs);
  }

  // ----- paths -----

  /** `os.path.join(a, b)` on POSIX paths. */
  function PathJoin(a: string, b: string): string {
    if |b| > 0 && b[0] == '/' then b
    else if a == "" || a[|a| - 1] == '/' then a + b
    else a + "/" + b
  }

  /** `os.path.isabs(p)`. */
  predicate IsAbsolute(p: string) {
    |p| > 0 && p[0] == '/'
  }

  /** A directory with a separator at its end. */
  function DirPrefix(dir: string): string {
    if dir != "" && dir[|dir| - 1] == '/' then dir else dir + "/"
  }

  /** `p` is a file named `name` somewhere below `dir`, spelled as `os.walk`
      spells it: the directory, then real entry names, none of them `.` or
      `..`, so the path never climbs out of the directory. */
  predicate InTree(p: string, dir: string, name: string) {
    var d := DirPrefix(dir);
    |d| <= |p| && p[..|d|] == d && EndsWith(p, "/" + name) && DownwardSteps(p[|d|..])
  }

  /** Every component of a relative path is an entry name. */
  predicate DownwardSteps(rel: string) {
    forall c | c in Split(rel, "/") :: IsFileName(c)
  }

  /** A path that steps up with `..` right below a directory is not in its
      tree, whatever follows. */
  lemma ParentStepEscapes(dir: string, rest: string, name: string)
    ensures !InTree(DirPrefix(dir) + "../" + rest, dir, name)
  {
    var d := DirPrefix(dir);
    var p := d + "../" + rest;
    var rel := "../" + rest;
    assert p[|d|..] == rel;
    assert rel[2..3] == "/";
    var first := FirstIndex(rel, "/");
    assert first.Some? && first.value <= 2 by {
      assert OccursAt(rel, "/", 2);
    }
    var k := first.value;
    assert rel[k..k + 1] == [rel[k]];
    assert k == 2;
    var pieces := Split(rel, "/");
    assert pieces[0] == rel[..2] == "..";
    assert pieces[0] in pieces;
  }

  /** A bare file name joined to a directory lies directly in it. */
  lemma {:induction false} JoinFileName(dir: string, name: string)
    requires dir != "" && IsFileName(name)
    ensures PathJoin(dir, name) == DirPrefix(dir) + name
    ensures InTree(PathJoin(dir, name), dir, name)
  {
    var d := DirPrefix(dir);
    assert name[0] != '/';
    assert |d| > 0 && d[|d| - 1] == '/';
    var p := d + name;
    assert PathJoin(dir, name) == p;
    assert p[..|d|] == d;
    assert p[|p| - |name| - 1..] == "/" + name by {
      assert p[|p| - |name| - 1..] == [d[|d| - 1]] + name;
    }
    assert p[|d|..] == name;
    SplitWithout(name, '/');
  }

  /** A string without the separator splits into itself alone. */
  lemma SplitWithout(s: string, c: char)
    requires c !in s
    ensures Split(s, [c]) == [s]
  {
    ContainsChar(s, c);
  }

  /** No search location is empty when the script directory is not. */
  lemma SearchPathsNonEmpty(scriptDir: string)
    requires scriptDir != ""
    ensures forall k :: 0 <= k < |SearchPaths(scriptDir)| ==> SearchPaths(scriptDir)[k] != ""
  {
  }

  /** `FONT_SEARCH_PATHS`, in order. */
  function SearchPaths(scriptDir: string): seq<string> {
    [ scriptDir,
      PathJoin(scriptDir, "fonts"),
      PathJoin(PathJoin(scriptDir, ".."), "fonts"),
      "/usr/share/fonts",
      "/System/Library/Fonts",
      "C:\\Windows\\Fonts" ]
  }

  /** The font the caller named: used as given when it is absolute and
      exists, otherwise joined to the script directory when that exists; no
      font when none was named. */
  function CustomFont(existing: set<string>, scriptDir: string, fontPath: Option<string>): (r: Option<string>)
    ensures r.Some? ==> r.value in existing
    ensures fontPath.None? || fontPath.value == "" ==> r.None?
    ensures fontPath.Some? && IsAbsolute(fontPath.value) && fontPath.value in existing ==> r == fontPath
    ensures fontPath.Some? && fontPath.value != "" && !(IsAbsolute(fontPath.value) && fontPath.value in existing) ==>
      r == (if PathJoin(scriptDir, fontPath.value) in existing then Some(PathJoin(scriptDir, fontPath.value)) else None)
  {
    match fontPath
    case None => None
    case Some(p) =>
      if p == "" then None
      else if IsAbsolute(p) && p in existing then Some(p)
      else if PathJoin(scriptDir, p) in existing then Some(PathJoin(scriptDir, p))
      else None
  }

  /** The recursive search of a directory finds a file of that name. */
  predicate FoundBelow(existing: set<string>, dir: string, name: string) {
    exists p | p in existing :: InTree(p, dir, name)
  }

  /** A search location yields the font: it exists, and either holds the file
      directly or is a fonts directory with the file somewhere below it. */
  predicate Hit(existing: set<string>, dir: string, name: string) {
    && dir in existing
    && (|| PathJoin(dir, name) in existing
        || (Contains(Lower(dir), "fonts") && FoundBelow(existing, dir, name)))
  }

  /** The first search location, from `from` on, that yields the font. */
  function FirstHit(existing: set<string>, paths: seq<string>, name: string, from: nat): (r: Option<nat>)
    ensures r.Some? ==> from <= r.value < |paths| && Hit(existing, paths[r.value], name)
    ensures r.Some? ==> forall j :: from <= j < r.value ==> !Hit(existing, paths[j], name)
    ensures r.None? ==> forall j :: from <= j < |paths| ==> !Hit(existing, paths[j], name)
    decreases |paths| - from
  {
    if from >= |paths| then None
    else if Hit(existing, paths[from], name) then Some(from)
    else FirstHit(existing, paths, name, from + 1)
  }

  /** Locations that yield nothing do not change where the search lands. */
  lemma {:induction false} FirstHitSkips(existing: set<string>, paths: seq<string>, name: string, from: nat, i: nat)
    requires from <= i <= |paths|
    requires forall j :: from <= j < i ==> !Hit(existing, paths[j], name)
    ensures FirstHit(existing, paths, name, from) == FirstHit(existing, paths, name, i)
    decreases i - from
  {
    if from < i {
      assert !Hit(existing, paths[from], name);
      assert FirstHit(existing, paths, name, from) == FirstHit(existing, paths, name, from + 1);
      FirstHitSkips(existing, paths, name, from + 1, i);
    }
  }

  /** What the winning location contributes: its direct child when that
      exists, otherwise some file of that name below it. */
  predicate Resolved(existing: set<string>, dir: string, name: string, p: string) {
    if PathJoin(dir, name) in existing then p == PathJoin(dir, name)
    else p in existing && InTree(p, dir, name)
  }

  /** A resolved font exists and is a file of the wanted name inside the
      winning directory. */
  lemma ResolvedIsFont(existing: set<string>, dir: string, name: string, p: string)
    requires dir != "" && IsFileName(name) && Resolved(existing, dir, name, p)
    ensures p in existing && InTree(p, dir, name)
  {
    if PathJoin(dir, name) in existing {
      JoinFileName(dir, name);
    }
  }

  /** The `found_font` block of `txt_to_pdf_multilang`: the caller's font
      when it exists, otherwise the default font from the first search
      location that has it, or nothing. Which of several files below a fonts directory the walk
      reaches first is left open. */
  method FindFont(existing: set<string>, scriptDir: string, fontPath: Option<string>, defaultFont: string)
    returns (found: Option<string>)
    ensures CustomFont(existing, scriptDir, fontPath).Some? ==> found == CustomFont(existing, scriptDir, fontPath)
    ensures CustomFont(existing, scriptDir, fontPath).None? ==>
      (found.None? <==> FirstHit(existing, SearchPaths(scriptDir), defaultFont, 0).None?)
    ensures CustomFont(existing, scriptDir, fontPath).None? && found.Some? ==>
      && FirstHit(existing, SearchPaths(scriptDir), defaultFont, 0).Some?
      && Resolved(existing, SearchPaths(scriptDir)[FirstHit(existing, SearchPaths(scriptDir), defaultFont, 0).value], defaultFont, found.value)
  {
    found := None;
    if fontPath.Some? && fontPath.value != "" {
      var p := fontPath.value;
      if IsAbsolute(p) && p in existing {
        found := Some(p);
      } else {
        var testPath := PathJoin(scriptDir, p);
        if testPath in existing {
          found := Some(testPath);
        }
      }
    }
    if found.None? {
      var paths := SearchPaths(scriptDir);
      var i := 0;
      while i < |paths|
        invariant 0 <= i <= |paths|
        invariant found.None?
        invariant forall j :: 0 <= j < i ==> !Hit(existing, paths[j], defaultFont)
      {
        var searchPath := paths[i];
        if searchPath in existing {
          var testPath := PathJoin(searchPath, defaultFont);
          if testPath in existing {
            found := Some(testPath);
            FirstHitSkips(existing, paths, defaultFont, 0, i);
            break;
          }
          if Contains(Lower(searchPath), "fonts") {
            var below := set p | p in existing && InTree(p, searchPath, defaultFont);
            if below != {} {
              var p :| p in below;
              found := Some(p);
              FirstHitSkips(existing, paths, defaultFont, 0, i);
              break;
            }
            assert !FoundBelow(existing, searchPath, defaultFont) by {
              forall p | p in existing
                ensures !InTree(p, searchPath, defaultFont)
              {
                assert p !in below;
              }
            }
          }
        }
        i := i + 1;
      }
      if found.None? {
        FirstHitSkips(existing, paths, defaultFont, 0, i);
      }
    }
  }

  function Quoted(s: string): string {
    "'" + s + "'"
  }

  /** One entry of the list of places to put the font. */
  function Location(dir: string): string {
    "  - " + dir + "\n"
  }

  function DownloadAdvice(language: string): string {
    " not found.\n\n"
    + "Please download Noto Sans font for " + Title(language) + " from:\n"
    + "https://fonts.google.com/noto\n\n"
    + "Place the font file in one of these locations:\n"
  }

  /** The error when no font file was found. */
  function FontNotFoundMessage(language: string, defaultFont: string, scriptDir: string): string {
    "Font file " + Quoted(defaultFont) + DownloadAdvice(language)
    + Location(scriptDir) + Location(PathJoin(scriptDir, "fonts"))
    + "\nOr provide the full path using the font_path parameter."
  }

  /** The message names the missing file, quoted, and both directories where
      it should be placed. */
  lemma FontNotFoundNames(language: string, defaultFont: string, scriptDir: string)
    ensures Contains(FontNotFoundMessage(language, defaultFont, scriptDir), Quoted(defaultFont))
    ensures Contains(FontNotFoundMessage(language, defaultFont, scriptDir), Location(scriptDir))
    ensures Contains(FontNotFoundMessage(language, defaultFont, scriptDir), Location(PathJoin(scriptDir, "fonts")))
  {
    var a := "Font file ";
    var q, d := Quoted(defaultFont), DownloadAdvice(language);
    var l1, l2 := Location(scriptDir), Location(PathJoin(scriptDir, "fonts"));
    var t := "\nOr provide the full path using the font_path parameter.";
    ContainsEnd(a, q);
    ContainsExtend(a + q, d, q);
    ContainsExtend(a + q + d, l1, q);
    ContainsExtend(a + q + d + l1, l2, q);
    ContainsExtend(a + q + d + l1 + l2, t, q);
    ContainsEnd(a + q + d, l1);
    ContainsExtend(a + q + d + l1, l2, l1);
    ContainsExtend(a + q + d + l1 + l2, t, l1);
    ContainsEnd(a + q + d + l1, l2);
    ContainsExtend(a + q + d + l1 + l2, t, l2);
  }

  /** The error when the font file cannot be registered. */
  function RegistrationMessage(path: string, error: string): string {
    "Error registering font '" + path + "': " + error
  }
}
