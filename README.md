# Book translator: a Dafny model of its translation run and PDF renderers

The book translator is a Streamlit application. It rasterises a range of a
PDF's pages and sends each page image to a vision model behind an
OpenRouter chat-completions endpoint. It assembles the page-tagged
translations into one transcript, and it can render a transcript, or any
text, back to a PDF in the script of the target language.

This project models the sequential core of that program and proves what it
promises:

- **Translation** (`translation.dfy`) models `translate_image`. One page
  image is sent with up to `retry_count` attempts. Attempt `k > 0` first
  sleeps `10 * (k + 1)` seconds. A 404 ends the call at once. A 429 and
  other failures are retried until the last attempt. The `[DETECTED: …]`
  marker of a successful reply is parsed into the detected language and the
  remaining text. The network is the parameter `net`, and the sleeps are
  returned as a log.
- **Pipeline** (`pipeline.dfy`) covers three steps:
  - `pdf_to_images` numbers the pages of an inclusive 1-based range;
  - the page loop builds one `--- Page n ---` entry per page, with a
    failure placeholder for a page that failed, and records the failed
    pages and the pacing pauses between pages;
  - the plurality vote picks the detected language.
- **Fonts** (`fonts.dfy`) covers the language table of
  `txt_to_pdf_multilang` and the normalisation of the language name. It
  also covers the search for the font file: first the caller's path, then
  `FONT_SEARCH_PATHS` in order with a recursive search below fonts
  directories. It ends with the error messages. The filesystem is the set
  of paths that exist.
- **Layout** (`layout.dfy`) is the layout engine shared by both
  converters. The text is split into sections on the `--- Page` sentinel.
  Each non-blank section starts a page and is laid out line by line. Each
  line is greedily word-wrapped against `stringWidth`. The cursor `y`
  breaks to a new page below the bottom margin. The reportlab canvas is a
  class whose field is the log of `setFont`, `drawString` and `showPage`
  calls. The loops are methods proved against the layout functions.
- **LayoutProperties** (`layout_properties.dfy`) proves what the layout
  guarantees:
  - the strings drawn for a line are its words, rejoined;
  - each drawn string fits the usable width or is one unbreakable word;
  - each line but the last is full;
  - every string is at the left margin, between the margins, and at least
    a line height below the one before it on its page.
- **Converter** (`converter.dfy`) models `txt_to_pdf_multilang` and
  `txt_to_pdf_with_hindi` end to end. Each returns either the canvas log
  of the PDF or the error message.
- `text.dfy` holds the Python string operations the code relies on:
  - `in`;
  - `split` on a separator and on whitespace;
  - `strip`, `lower` and `title`;
  - `join`.

  `wrappers.dfy` holds `Option` and `Result`.

## Model

| member | source | states |
|---|---|---|
| Pipeline.PdfToImages | streamlit_Book_translator.py:212-228 | one image per page of the inclusive range `[start_page, end_page]`, none when the range is empty; the j-th image carries page number `start_page + j` and the raster of document page `start_page - 1 + j`, so the numbers increase by one without gaps |
| Translation.ParseReplyCases | streamlit_Book_translator.py:300-311 | a reply without `[DETECTED:` is returned unchanged with no language; with the marker a language is always reported; a reply without `]` keeps its raw text (the swallowed exception) |
| Translation.WellFormedReply | streamlit_Book_translator.py:302-307 | for `<p>[DETECTED:<d>]<rest>` with no brackets in `p` or `d`, the language is `d` trimmed and the translation is `rest` trimmed |
| Translation.UnclosedMarker | streamlit_Book_translator.py:302-309 | a marker that is never closed does not fail: the translation is the raw reply, and the language is the trimmed text after the first marker, up to the next marker if there is one, assigned before the exception |
| Translation.HandleResponse | streamlit_Book_translator.py:287-320 | one response is classified as `Classify` says: 404 gives the model-not-found error; 429, an error status or an exception is retried unless the attempt is the last, when it gives the rate-limit, `HTTP Error <code>` or exception message; a reply gives its parsed text and language |
| Translation.TranslateImage | streamlit_Book_translator.py:281-322 | the retry loop yields the outcome, the request count and the backoff log of the reference `Attempts`; with no attempts it gives `All retry attempts failed` |
| Translation.CallShape | streamlit_Book_translator.py:281-322 | a call makes between 1 and `retry_count` requests; every response but the last was retryable and the last decides the outcome |
| Translation.CallRequests | streamlit_Book_translator.py:281-293 | at least one and at most one request per remaining attempt |
| Translation.CallRetries | streamlit_Book_translator.py:291-293 | every request but the last got a retryable response |
| Translation.CallFinal | streamlit_Book_translator.py:289-320 | the last request's response is final and gives the call's outcome |
| Translation.NotFoundStopsAtOnce | streamlit_Book_translator.py:289-290 | a 404 on the first attempt ends the call after one request, with no sleep and the model-not-found error |
| Translation.PersistentRateLimit | streamlit_Book_translator.py:291-294 | a 429 on every attempt makes exactly `retry_count` requests and ends with the rate-limit error |
| Translation.BackoffSchedule | streamlit_Book_translator.py:283-285 | no sleep before the first attempt; the i-th sleep, the one before attempt `i + 1`, is `10 * (i + 2)` seconds |
| Translation.LaterBackoffs | streamlit_Book_translator.py:283-285 | from a later attempt on, a call sleeps once per request, the j-th sleep being the backoff of attempt `attempt + j` |
| Pipeline.TranslatePages | streamlit_Book_translator.py:432-477 | the transcript is the page entries joined with newlines; the failed pages, the page count and every pause are those of the calls made with the default budget; a language is stored exactly when some page that succeeded (a non-empty translation) reported a non-empty language, and it has the greatest count among those |
| Pipeline.PageLoop | streamlit_Book_translator.py:432-461 | the loop builds one entry per page in order, the failed pages, the detected languages of successful pages and the pause log, as the reference functions give them |
| Pipeline.FailedPagesExact | streamlit_Book_translator.py:454-460 | with increasing page numbers, a page is listed as failed if and only if its call did not produce a non-empty translation |
| Pipeline.FailedPagesBelow | streamlit_Book_translator.py:454-460 | a bound on the processed pages' numbers bounds every failed page number |
| Pipeline.PacingCount | streamlit_Book_translator.py:440-442 | a run over n pages pauses for pacing exactly n - 1 times, never before the first page |
| Pipeline.NoPacingInRetries | streamlit_Book_translator.py:283-285 | the sleeps inside a call are all retry backoffs |
| Pipeline.MostCommon | streamlit_Book_translator.py:472-477 | `max(set(xs), key=xs.count)`: a member of the list whose count no other member exceeds |
| Fonts.Lookup | multilang_pdf_converter.py:28-74 | a key is found exactly when it is the key of one of the nine table languages, and then names that language |
| Fonts.Index | multilang_pdf_converter.py:28-74 | every language's key sits in the table's key list, in table order |
| Fonts.Profile | multilang_pdf_converter.py:28-74 | every language but English needs a special font |
| Fonts.DefaultFontIsFileName | multilang_pdf_converter.py:30-74 | every font the search looks for is a bare file name |
| Fonts.NormalizeIdempotent | multilang_pdf_converter.py:88 | lowering and trimming a normalised name changes nothing |
| Fonts.NormalizeKeys | multilang_pdf_converter.py:88-94 | every table key, as written, normalises to itself and is found |
| Fonts.UnsupportedListsAll | multilang_pdf_converter.py:91-92 | the rejection of an unknown language lists every supported key and names the language |
| Fonts.CustomFont | multilang_pdf_converter.py:101-109 | no font when none is named; an absolute path that exists is used as given; any other named path is used joined to the script directory exactly when that join exists, and otherwise not at all |
| Fonts.FirstHit | multilang_pdf_converter.py:116-133 | the first search location, in list order, that exists and holds the font directly or, for a fonts directory, in its tree as `os.walk` reaches it (real entry names, never `..`); every earlier location yields nothing |
| Fonts.FindFont | multilang_pdf_converter.py:99-133 | the search settles on the caller's font when it exists; otherwise it finds a font exactly when some location yields one, and the font comes from the first such location, its direct child winning over the recursive search |
| Fonts.ResolvedIsFont | multilang_pdf_converter.py:120-131 | a font found in a location exists and is a file of the wanted name in that location's tree: the location, then only real entry names (no empty, `.` or `..` component), so it never lies outside the location |
| Fonts.ParentStepEscapes | multilang_pdf_converter.py:127-130 | a path that steps up with `..` right below a location is never in its tree, whatever follows, since `os.walk` only descends |
| Fonts.FontNotFoundNames | multilang_pdf_converter.py:136-146 | the not-found message names the quoted default font file and both the script directory and its `fonts` subdirectory |
| Converter.ChosenFontExists | multilang_pdf_converter.py:99-133 | the font settled on exists; unless it is the caller's, it is a file of the default font's name in a search location's tree, reached through real entry names only, never through `..` |
| Converter.LoadFont | multilang_pdf_converter.py:97-152 | with no font anywhere, the not-found message; otherwise a font the resolution may choose is registered, giving its path or the registration error |
| Converter.TxtToPdfMultilang | multilang_pdf_converter.py:86-220 | an unknown language is rejected with the unsupported message and nothing drawn; a known one is rendered with its table entry as `Render` states |
| Converter.Render | multilang_pdf_converter.py:97-217 | English is laid out in Helvetica with no font search; otherwise no font gives the not-found message and no drawing, a failed registration its error, and a registered font the layout of the text in that font |
| Converter.HindiFontPath | streamlit_Book_translator.py:328-331 | the caller's font when it exists, otherwise the fixed Devanagari file when it exists, otherwise none; a chosen font always exists |
| Converter.TxtToPdfWithHindi | streamlit_Book_translator.py:324-410 | without a font, the missing-font message; a registration failure is reported as an error creating the PDF; otherwise the text is laid out in the Devanagari font |
| Layout.DrawSections | multilang_pdf_converter.py:164-211 | the canvas log gains the layout of every section of the text, in order |
| Layout.DrawSection | multilang_pdf_converter.py:169-211 | a blank section adds nothing; otherwise its lines from the top of a page, then one page break |
| Layout.DrawLine | multilang_pdf_converter.py:178-209 | one source line: the page-break check, then the wrapped words or a half-line advance for a blank line |
| Layout.DrawWords | multilang_pdf_converter.py:183-207 | the font call, the greedy wrap loop and the rest of the line, as `WordLine` gives them |
| LayoutProperties.LineLayout | multilang_pdf_converter.py:183-209 | the strings a line draws, joined with single spaces, are `" ".join(line.split())`; each fits the width or is one word; each but the last is full; a blank line draws nothing |
| LayoutProperties.LineDraws | multilang_pdf_converter.py:178-209 | a source line draws exactly the greedy lines of its words |
| LayoutProperties.WrapDraws | multilang_pdf_converter.py:192-207 | the wrap loop draws exactly the greedy lines of its words |
| LayoutProperties.GreedyJoin | multilang_pdf_converter.py:189-207 | no word is lost, repeated or reordered by the wrap |
| LayoutProperties.GreedyFit | multilang_pdf_converter.py:193-203 | every drawn line is non-empty and fits `max_width` or is a single word |
| LayoutProperties.GreedyMaximal | multilang_pdf_converter.py:195-203 | a line is broken only when the next word would not fit on it |
| LayoutProperties.LineStepOk | multilang_pdf_converter.py:179-209 | a source line keeps every string placed between the margins and a line height apart, and only appends to the log |
| LayoutProperties.WrapWordsOk | multilang_pdf_converter.py:192-203 | the wrap loop keeps the cursor at or above the bottom margin and the placement invariant |
| LayoutProperties.SectionOnePageBreak | multilang_pdf_converter.py:169-211 | a non-blank section ends with a drawn string followed by its one page break: the last stripped line is never blank, so the section's `showPage` is the only one after its last `drawString` |
| LayoutProperties.SectionStepOk | multilang_pdf_converter.py:169-211 | a section keeps the placement invariant; a blank one adds nothing; any other one adds to the log and ends with a page break |
| LayoutProperties.LayoutSectionsOk | multilang_pdf_converter.py:169-211 | all sections keep the placement invariant and only append to the log |
| LayoutProperties.DocumentPlaced | multilang_pdf_converter.py:164-211 | in the whole document every drawn string is at the left margin, between the bottom margin and the top line, and fits |
| LayoutProperties.SectionsJoin | multilang_pdf_converter.py:164-167 | the sections rejoined with the sentinel give back the text, and no section holds the sentinel |
| Translation.ParseReply | streamlit_Book_translator.py:300-311 | the marker parse as a function: without the marker the reply and no language; otherwise the trimmed text after the first marker, up to the next marker or `]`, as the language, and the trimmed text after the first `]` (or the raw reply when there is none) as the translation |
| Translation.BracketBeforeMarker | streamlit_Book_translator.py:302-307 | a `]` before the marker closes nothing: the text is cut after that first `]`, so the translation still holds the marker, and a language is still reported |
| Translation.Retryable | streamlit_Book_translator.py:289-293 | which responses the loop retries: anything but a 404 or a reply, unless the attempt is the last |
| Translation.FinalOutcome | streamlit_Book_translator.py:289-320 | the outcome a response ends the call with: the not-found, rate-limit, `HTTP Error <code>` or exception message, or the parsed reply |
| Translation.Classify | streamlit_Book_translator.py:287-320 | one attempt's decision: retry, or end the call with the final outcome |
| Translation.Attempts | streamlit_Book_translator.py:281-322 | the reference for the retry loop: the outcome, request count and sleeps of the attempts from a given one on |
| Pipeline.Succeeded | streamlit_Book_translator.py:454 | Python truthiness of the returned translation |
| Pipeline.Entry | streamlit_Book_translator.py:454-459 | one page's transcript entry: the page header, then the translation or the failure placeholder naming the error (`None` when there is none) |
| Pipeline.Calls | streamlit_Book_translator.py:445-452 | one call of the retry loop per page image, in order |
| Pipeline.Entries | streamlit_Book_translator.py:454-459 | the entries of the pages, in page order |
| Pipeline.FailedPages | streamlit_Book_translator.py:458-460 | the numbers of the pages whose translation is falsy, in page order |
| Pipeline.DetectedLanguages | streamlit_Book_translator.py:454-457 | the non-empty languages reported by pages that succeeded, in page order |
| Pipeline.PauseLog | streamlit_Book_translator.py:440-442 | every sleep of the run in order: the pacing wait before each page but the first, then that page's retry sleeps |
| Fonts.Normalize | multilang_pdf_converter.py:88 | `lower().strip()` of the requested language |
| Fonts.UnsupportedMessage | multilang_pdf_converter.py:92 | the rejection of an unknown language, listing the table's keys joined with `, ` |
| Fonts.PathJoin | multilang_pdf_converter.py:107 | `os.path.join` of two POSIX paths: an absolute second path replaces the first |
| Fonts.SearchPaths | multilang_pdf_converter.py:77-84 | `FONT_SEARCH_PATHS`: the script directory, its `fonts` subdirectory, the parent's `fonts` directory, then the three system font directories |
| Fonts.Hit | multilang_pdf_converter.py:116-131 | a search location yields the font: it exists and holds the file directly, or its lowercased name contains `fonts` and a file of that name exists in its tree, spelled through real entry names with no `..` |
| Fonts.Resolved | multilang_pdf_converter.py:120-131 | the font a winning location gives: its direct child when that exists, otherwise some existing file of that name in its tree, never one reached through `..` |
| Fonts.FontNotFoundMessage | multilang_pdf_converter.py:137-145 | the not-found message with the file name, the title-cased language and the two suggested directories |
| Layout.Sections | multilang_pdf_converter.py:164-167 | the text split at every `--- Page`, or the whole text when there is none |
| Layout.PageCheck | multilang_pdf_converter.py:179-181 | below the bottom margin, a page break and the cursor back at the top |
| Layout.WordStep | multilang_pdf_converter.py:192-203 | one word of the wrap loop: drawn line and a line-height drop (and a page break below the margin) when the candidate overflows a non-empty line, otherwise the word joins the line |
| Layout.WrapWords | multilang_pdf_converter.py:192-203 | the wrap loop over the words of a line |
| Layout.FinishLine | multilang_pdf_converter.py:205-207 | the rest of the line drawn, and the cursor a line height lower |
| Layout.WordLine | multilang_pdf_converter.py:183-207 | the font call, the wrap loop and the rest of the line |
| Layout.LineStep | multilang_pdf_converter.py:178-209 | one source line: the page check, then its words, or a drop of 8 for a blank line |
| Layout.LayoutLines | multilang_pdf_converter.py:176-209 | the lines of a section, in order |
| Layout.SectionStep | multilang_pdf_converter.py:169-211 | one section: nothing when blank, otherwise its stripped lines from the top of a page, then a page break |
| Layout.LayoutSections | multilang_pdf_converter.py:169-211 | the sections, in order |
| Layout.Document | multilang_pdf_converter.py:155-211 | everything a text puts on a fresh canvas |
| Text.JoinSplit | multilang_pdf_converter.py:165 | `sep.join(s.split(sep)) == s` |
| Text.StripIdempotent | multilang_pdf_converter.py:88 | stripping twice is stripping once |

## Left out

- The Streamlit interface, session state, widgets, downloads and the cost
  estimate are presentation only. The run starts from the page images and
  ends with the values it stores.
- The HTTP request itself, its JSON payload and prompt, the 120-second
  timeout and the API key are not modelled. The network is a parameter
  giving the response to each request. A 2xx body that is not the expected
  JSON is an exception response.
- Sleeps are recorded in a log, not performed. Progress and status
  messages are not modelled.
- PyMuPDF rasterisation, PNG encoding and base64 are foreign calls. A page
  image is an opaque value.
- Pipeline.PdfToImages requires the range to lie inside the document. The
  source then raises from PyMuPDF, which is not modelled.
- Reportlab's font registration is a host function that returns an error
  message or nothing. Real glyph widths are a width function. Saving the
  PDF to bytes is not modelled; the result is the canvas log.
- The width of a string depends only on the registered font name, not on
  the file registered under it. Which file the font search settles on
  therefore does not change the layout, whereas reportlab measures with
  the file actually registered.
- Layout positions are exact reals, not floating point. The A4 sizes are
  reportlab's values written as decimals.
- Python's `lower` and `title` are modelled on the ASCII letters only;
  other letters are left as they are. Whitespace for `strip` and `split`
  is Python's full `str.isspace` set.
- Paths are POSIX paths. `os.path.join` is modelled for them, and the
  Windows font directory is just a string. Symbolic links and the
  difference between files and directories are not modelled.
- The filesystem is a set of path strings, so two spellings of one file
  are two entries. A file counts as found below a fonts directory only
  when it is spelled as `os.walk` builds it: the directory, then entry
  names, none empty, `.` or `..`.
- Fonts.FindFont leaves open which file below a fonts directory `os.walk`
  reaches first. Any file of the right name below it may be chosen, since
  the walk order depends on the filesystem.
- Pipeline.MostCommon states only that the stored language has the
  greatest count. The tie-break of `max(set(...))` depends on set
  iteration order.
- The "Error creating PDF" handler of `txt_to_pdf_multilang` catches
  exceptions that only reportlab and the filesystem can raise. The model
  has no such exceptions, so that path is not modelled.
- In `txt_to_pdf_with_hindi`, a registration failure becomes that
  handler's message, and that is modelled. The `ImportError` fallback of
  both converters is not modelled.
- A reply whose `[DETECTED:` marker is never closed still reports a
  detected language, because the code assigns it before the exception is
  swallowed. The model follows the code in this case.
