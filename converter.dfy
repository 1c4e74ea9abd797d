/** The two text-to-PDF converters: `txt_to_pdf_multilang`, which looks the
    language up, finds and registers its font and lays the text out, and
    `txt_to_pdf_with_hindi`, which does the same with a fixed Devanagari
    font. The result is the canvas log of the PDF, or the error message. */
module Converter {
  import opened Wrappers
  import opened Text
  import opened Layout
  import opened Fonts

  /** What a converter sees of its surroundings: the paths that exist, the
      directory of the script, the outcome of registering a font file under
      a name (an error message, or nothing on success), and the width of a
      string in a font at the layout's size. */
  datatype Host = Host(
    existing: set<string>,
    scriptDir: string,
    register: string -> string -> Option<string>,
    measure: string -> string -> real)

  /** No font file could be found for the language. */
  predicate NoFont(host: Host, fontPath: Option<string>, defaultFont: string) {
    && CustomFont(host.existing, host.scriptDir, fontPath).None?
    && FirstHit(host.existing, SearchPaths(host.scriptDir), defaultFont, 0).None?
  }

  /** `path` is a font file the resolution may settle on: the caller's font
      when it exists, otherwise the default font at the first search location
      that has it. */
  predicate FontChoice(host: Host, fontPath: Option<string>, defaultFont: string, path: string) {
    match CustomFont(host.existing, host.scriptDir, fontPath)
    case Some(p) => path == p
    case None =>
      var hit := FirstHit(host.existing, SearchPaths(host.scriptDir), defaultFont, 0);
      hit.Some? && Resolved(host.existing, SearchPaths(host.scriptDir)[hit.value], defaultFont, path)
  }

  /** A chosen font exists; unless it is the caller's, it is a file of the
      default font's name inside a search location. */
  lemma ChosenFontExists(host: Host, fontPath: Option<string>, defaultFont: string, path: string)
    requires host.scriptDir != "" && IsFileName(defaultFont)
    requires FontChoice(host, fontPath, defaultFont, path)
    ensures path in host.existing
    ensures CustomFont(host.existing, host.scriptDir, fontPath).None? ==>
      exists k :: 0 <= k < |SearchPaths(host.scriptDir)| && InTree(path, SearchPaths(host.scriptDir)[k], defaultFont)
  {
    if CustomFont(host.existing, host.scriptDir, fontPath).None? {
      var paths := SearchPaths(host.scriptDir);
      var k := FirstHit(host.existing, paths, defaultFont, 0).value;
      SearchPathsNonEmpty(host.scriptDir);
      ResolvedIsFont(host.existing, paths[k], defaultFont, path);
    }
  }

  /** The PDF of a text laid out in a font, or the registration error. */
  function Registered(host: Host, profile: FontProfile, path: string, text: string): Result<seq<Event>, string> {
    match host.register(profile.fontName)(path)
    case Some(e) => Failure(RegistrationMessage(path, e))
    case None => Success(Document(text, profile.fontName, host.measure(profile.fontName)))
  }

  /** The font block of `txt_to_pdf_multilang`: find the language's font file
      and register it under the language's font name. */
  method LoadFont(language: string, profile: FontProfile, fontPath: Option<string>, host: Host)
    returns (loaded: Result<string, string>)
    ensures NoFont(host, fontPath, profile.defaultFont) ==>
      loaded == Failure(FontNotFoundMessage(language, profile.defaultFont, host.scriptDir))
    ensures !NoFont(host, fontPath, profile.defaultFont) ==>
      exists path :: FontChoice(host, fontPath, profile.defaultFont, path) && Loaded(host, profile, path, loaded)
  {
    var path := FindFont(host.existing, host.scriptDir, fontPath, profile.defaultFont);
    if path.None? {
      return Failure(FontNotFoundMessage(language, profile.defaultFont, host.scriptDir));
    }
    assert FontChoice(host, fontPath, profile.defaultFont, path.value);
    var error := host.register(profile.fontName)(path.value);
    if error.Some? {
      return Failure(RegistrationMessage(path.value, error.value));
    }
    return Success(path.value);
  }

  /** The outcome of registering the font file `path`. */
  predicate Loaded(host: Host, profile: FontProfile, path: string, loaded: Result<string, string>) {
    match host.register(profile.fontName)(path)
    case Some(e) => loaded == Failure(RegistrationMessage(path, e))
    case None => loaded == Success(path)
  }

  /** `txt_to_pdf_multilang`: unknown languages are rejected with the list of
      supported ones; a known language is rendered with its table entry. */
  method TxtToPdfMultilang(text: string, targetLanguage: string, fontPath: Option<string>, host: Host)
    returns (r: Result<seq<Event>, string>)
    ensures var language := Normalize(targetLanguage);
      match Lookup(language)
      case None => r == Failure(UnsupportedMessage(language))
      case Some(l) => Rendered(text, language, Profile(l), fontPath, host, r)
  {
    var language := Normalize(targetLanguage);
    var found := Lookup(language);
    if found.None? {
      return Failure(UnsupportedMessage(language));
    }
    r := Render(text, language, Profile(found.value), fontPath, host);
  }

  /** The PDF of a known language: laid out in the built-in font when the
      language needs none, otherwise the font-not-found error, the
      registration error, or the layout in the registered font. */
  ghost predicate Rendered(text: string, language: string, profile: FontProfile, fontPath: Option<string>, host: Host,
                     r: Result<seq<Event>, string>) {
    if !profile.requiresSpecialFont then
      r == Success(Document(text, profile.fontName, host.measure(profile.fontName)))
    else if NoFont(host, fontPath, profile.defaultFont) then
      r == Failure(FontNotFoundMessage(language, profile.defaultFont, host.scriptDir))
    else
      exists path :: FontChoice(host, fontPath, profile.defaultFont, path) && r == Registered(host, profile, path, text)
  }

  /** The rest of `txt_to_pdf_multilang` once the table entry is known: the
      font block when the language needs its own font, then the layout. */
  method Render(text: string, language: string, profile: FontProfile, fontPath: Option<string>, host: Host)
    returns (r: Result<seq<Event>, string>)
    ensures Rendered(text, language, profile, fontPath, host, r)
  {
    ghost var chosen := "";
    if profile.requiresSpecialFont {
      var loaded := LoadFont(language, profile, fontPath, host);
      if loaded.Failure? {
        return Failure(loaded.error);
      }
      chosen :| FontChoice(host, fontPath, profile.defaultFont, chosen) && Loaded(host, profile, chosen, loaded);
    }
    var c := new Canvas();
    DrawSections(c, text, profile.fontName, host.measure(profile.fontName));
    r := Success(c.events);
  }

  /** The Devanagari font file of the Hindi-only renderer. */
  const HindiFont: string := "NotoSansDevanagari-Regular.ttf"

  const HindiFontMissing: string := "Hindi font (NotoSansDevanagari-Regular.ttf) not found in project folder"

  /** The error for any failure while the PDF is made. */
  function PdfErrorMessage(error: string): string {
    "Error creating PDF: " + error
  }

  /** The font file the Hindi-only renderer uses: the caller's when it exists,
      otherwise the fixed file name when that exists. */
  function HindiFontPath(existing: set<string>, fontPath: Option<string>): (r: Option<string>)
    ensures r.Some? ==> r.value in existing
    ensures fontPath.Some? && fontPath.value != "" && fontPath.value in existing ==> r == fontPath
    ensures r.Some? && r != fontPath ==> r.value == HindiFont
    ensures r.None? <==> HindiFont !in existing && !(fontPath.Some? && fontPath.value != "" && fontPath.value in existing)
  {
    if fontPath.Some? && fontPath.value != "" && fontPath.value in existing then fontPath
    else if HindiFont in existing then Some(HindiFont)
    else None
  }

  /** `txt_to_pdf_with_hindi`: without a usable font file nothing is drawn;
      a registration failure is reported as an error making the PDF; otherwise
      the text is laid out in the Devanagari font. */
  method TxtToPdfWithHindi(text: string, fontPath: Option<string>, existing: set<string>,
                           register: string -> Option<string>, measure: string -> real)
    returns (r: Result<seq<Event>, string>)
    ensures match HindiFontPath(existing, fontPath)
      case None => r == Failure(HindiFontMissing)
      case Some(p) =>
        match register(p)
        case Some(e) => r == Failure(PdfErrorMessage(e))
        case None => r == Success(Document(text, "Devanagari", measure))
  {
    var path: string;
    if fontPath.None? || fontPath.value == "" || fontPath.value !in existing {
      path := HindiFont;
      if path !in existing {
        return Failure(HindiFontMissing);
      }
    } else {
      path := fontPath.value;
    }
    var error := register(path);
    if error.Some? {
      return Failure(PdfErrorMessage(error.value));
    }
    var c := new Canvas();
    DrawSections(c, text, "Devanagari", measure);
    return Success(c.events);
  }
}
