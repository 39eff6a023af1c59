# pdf_translator: a verified model of the text pipeline

pdf_translator is a small Streamlit app (`app.py`). It takes the text of an
uploaded PDF and sends it to a hosted reasoning model twice. The Format
stage reformats the extraction. The Translate stage translates into
Malayalam. This project models the pipeline behind the buttons and proves
properties of it:

- **Extraction** (`extraction.dfy`): the whole-document text is every page's
  text, in page order, with the marker `"\n\n--- Page Break ---\n\n"` between
  each two pages. `ExtractAllText` is the collecting loop. `Join` and
  `Offset` say where each page and each marker sit.
- **Reasoning-tag stripper** (`think_tags.dfy`): `remove_think_tags` as a
  left-to-right scan. Each `<think>` the scan reaches that has a
  `</think>` after it starts a span. A `<think>` inside an earlier span is
  never reached. The span runs to the nearest close tag and is dropped
  together with both tags. Every other character is kept. Then Python's `str.strip()`
  removes whitespace at both ends, using the character set of Python's
  `str.isspace()`.
- **Stages** (`stages.dfy`): `format_extraction` and
  `translate_to_malayalam` as one `RunStage` method.
  - It builds the two messages and calls the completion provider. The
    provider is a parameter of type `Request -> Completion`.
  - It appends the streamed chunks. An absent chunk counts as `""`.
  - It strips the reasoning tags.
  - A raised error becomes `"Error in formatting extraction: "` or
    `"Error in translation: "` followed by the message.
- **Session cache** (`session.dfy`): `st.session_state` is a class over a
  string-keyed map.
  - The Format button stores its output under `formatted_text` or
    `formatted_text_page_<n>`.
  - The Translate button reads that key with the scope's raw text as the
    default.

Behaviour of app.py worth knowing, each shown by a member of the model:

- **Cached errors feed Translate.** Format returns its error string as an
  ordinary value (app.py:66-67), main stores whatever Format returned
  (app.py:162, 215), and Translate reads it back (app.py:177, 223-225). A
  failed Format is therefore translated as if it were text
  (`FormatThenTranslate`).
- **The stripper is not idempotent.** One pass of the substitution at
  app.py:26 can leave a complete `<think>...</think>` span behind
  (`StripperNotIdempotent`).
- **The page-break marker is not escaped.** app.py:12 joins the pages
  as they are, so the joined text cannot always be split back into its
  pages (`PageBreakNotEscaped`).
- **Translations are never cached.** The translation is shown
  (app.py:179, 227), offered for download in the whole-document view only
  (app.py:181-186), and never stored, so each Translate press calls the
  provider again (`RunTranslate` changes no state).
- **Cache entries are not tied to the uploaded file.** The keys name only
  the scope (app.py:162, 215), so an entry stored while one file is open is
  read for the next file with the same scope (`FormatThenTranslateNextFile`).

## Model

| member | source | states |
|---|---|---|
| Extraction.ExtractAllText | app.py:7-12 | the returned text is the pages joined, in order, by the page-break marker |
| Extraction.Join | app.py:12 | no pages give ""; otherwise the joined text is as long as every page plus one marker for each gap |
| Extraction.JoinLayout | app.py:12 | page i appears unchanged at its offset, and exactly the marker lies between page i and page i+1 |
| Extraction.JoinSmallCases | app.py:12 | no pages give "", one page gives that page, two pages give first, marker, second |
| Extraction.PageBreakNotEscaped | app.py:12 | for any strings a and b, the one page a + marker + b joins to the same text as the two pages a and b, so the join is not invertible |
| ThinkTags.TrimStart | app.py:26 | what is dropped from the front is all whitespace; what is kept is a suffix that starts with non-whitespace |
| ThinkTags.TrimEnd | app.py:26 | what is dropped from the back is all whitespace; what is kept is a prefix that ends with non-whitespace |
| ThinkTags.Strip | app.py:26 | the result has no whitespace at either end, is no longer than the input, and an already trimmed string is returned unchanged |
| ThinkTags.StripIsInfix | app.py:26 | stripping returns an infix of the input with only whitespace removed on each side |
| ThinkTags.FindFirst | app.py:26 | a returned index is an occurrence with none before it; None exactly when there is no occurrence |
| ThinkTags.SpanEnd | app.py:26 | a span that starts at the front ends after both tags and inside the text |
| ThinkTags.DropSpans | app.py:26 | removing spans never lengthens the text |
| ThinkTags.RemoveThinkTags | app.py:15-26 | the result has no whitespace at either end and is no longer than the input |
| ThinkTags.OpenFreePrefixKept | app.py:26 | text before the first `<think>` is kept verbatim |
| ThinkTags.CloseFreeKept | app.py:26 | without any `</think>` there is no span, so nothing is removed |
| ThinkTags.SpanDropped | app.py:25-26 | `<think>` m `</think>` is removed whole, both tags included, when m has no close tag |
| ThinkTags.ThinkSpanRemoved | app.py:25-26 | a span after tag-free text is removed and scanning continues after its close tag |
| ThinkTags.SpanEndIgnoresTail | app.py:26 | a tail that starts with '<' and holds no close tag does not change where a span at the front ends |
| ThinkTags.UnterminatedTailKept | app.py:26 | a tail that starts with '<' and holds no `</think>` is kept verbatim, whatever precedes it |
| ThinkTags.NoThinkTagOnlyStrips | app.py:15-26 | text without `<think>` is only stripped of outer whitespace |
| ThinkTags.SpanBeforeAnswer | app.py:15-26 | a reply of one reasoning span (newlines allowed inside) and then an answer yields the stripped answer |
| ThinkTags.TwoSpansRemoved | app.py:15-26 | every span is removed, not only the first: a, b and c around two spans give a+b+c, stripped |
| ThinkTags.UnterminatedOpenKept | app.py:15-26 | an open tag with no close tag after it is kept along with everything that follows it |
| ThinkTags.CloseAloneKept | app.py:26 | a lone `</think>` is not removed |
| ThinkTags.SpanJoinsNeighbours | app.py:26 | removing an inner span can join the text around it into a new complete span |
| ThinkTags.StripperNotIdempotent | app.py:15-26 | a second application can change the result: one pass leaves `<think>y</think>`, and a second pass removes it |
| Stages.MakeRequest | app.py:41-51 | the user message is the input verbatim, the system message is the stage's instruction, and an empty key means the ambient credential |
| Stages.AssembleStream | app.py:61-63 | the loop's result is the chunks' contents concatenated in order |
| Stages.Assembled | app.py:61-63 | the fold of `content or ""` over the chunks: no chunks give "", and the text is exactly as long as the chunks' contents together |
| Stages.RunStage | app.py:29-109 | the stage output is the stripped assembled stream, or the stage's error prefix followed by the message when the call raised |
| Stages.StageOutput | app.py:61-67 | a streamed reply comes back with no whitespace at either end and no longer than what was streamed; a raised error comes back as the stage's prefix followed by exactly the error's message |
| Stages.AssembledAppend | app.py:61-63 | assembly distributes over splitting the stream |
| Stages.AbsentChunkIgnored | app.py:63 | a chunk without content, anywhere in the stream, changes nothing |
| Stages.ErrorMapped | app.py:66-67 | a raised error gives "Error in formatting extraction: " + message for Format and "Error in translation: " + message for Translate |
| Stages.ErrorTextTrimmed | app.py:66-67 | an error string whose message ends in non-whitespace has no whitespace at either end |
| Stages.FailureIndistinguishable | app.py:61-67 | a reply that streams exactly the error text gives the same output as the error itself, so callers cannot tell failure from success |
| Session.Decimal | app.py:215 | the page number is written as decimal digits that spell it, without a leading zero |
| Session.DecimalInjective | app.py:215 | different page numbers are written differently |
| Session.CacheKey | app.py:215 | the whole document's key is `formatted_text`; page n's key is `formatted_text_page_` followed by decimal digits that spell n |
| Session.CacheKeyInjective | app.py:215 | distinct scopes have distinct session keys, and the whole document's key is no page's key |
| Session.SessionState.TranslateInput | app.py:223-225 | the scope's cached string when there is one, otherwise the raw text |
| Session.RawText | app.py:198-199 | page n (numbered from 1, as the selector shows) is `pages[n - 1]`; the whole document is the joined text, which for one page is that page |
| Session.ExtractRaw | app.py:144-146 | the raw text extracted before any button is pressed is the scope's RawText |
| Session.SessionState.RunFormat | app.py:212-215 | Format runs on the scope's raw text; its output, error or not, overwrites the scope's entry; other scopes keep their Translate input |
| Session.SessionState.RunTranslate | app.py:172-178 | Translate runs on the scope's cached Format output if present, else on the raw text, and stores nothing |
| Session.SessionState.FormatThenTranslate | app.py:157-178 | after Format, Translate sends exactly what Format returned; a failed Format sends "Error in formatting extraction: " + message |
| Session.SessionState.FormatThenTranslateNextFile | app.py:159-177 | Format on one file, then Translate with another file's pages and the same scope, sends the first file's Format output; the new map is the old one with that scope's entry set |

## Left out

- The Streamlit interface: titles, tabs, text areas, spinners, the file-details listing and the download buttons, with their `.encode()` calls.
- The view-mode radio and the page selector: the scope is a parameter. `ValidScope` asks for a page number between 1 and the page count, which is what the selector enforces. A document with no pages fails inside the selector and reaches the outer error handler, which is not modelled.
- PDF parsing and text extraction: the pages are given as already-extracted strings. A page that fails to decode is not modelled; in the code its error from `extract_text` (app.py:11, 199) reaches the handler at app.py:229-230 rather than becoming an empty page.
- The Groq client: the model name, temperature, token limit, top_p and stop are not modelled. The provider is a total function from request to outcome, so in the model the same request always gives the same outcome and two Format presses on one scope give the same string. The real call samples at temperature 0.7 (app.py:55), so two presses can differ. Nothing proved depends on repeating a call.
- Stages.RunStage: an error raised part-way through the stream is modelled as `Raised`. The text streamed before it is discarded, as the code does.
- Python's regular-expression engine in general: only the one pattern used by `remove_think_tags` is modelled, by its scan.
- Concurrency between browser sessions, and Streamlit's reruns other than as the persistence of the session map.
