# ExpenseRule receipt pipeline — a Dafny model

ExpenseRule is a small local web application for sole proprietors. It
turns photos and PDFs of receipts into categorized Schedule C expenses.
This project models the decision logic at its core and proves
properties of it:

- **Categorization** (`categorization.dfy`, module `Categorization`):
  `suggest_category` and its helpers. A merchant name is matched in a fixed
  order: the user's correction memory, then the built-in merchant lookup
  table (an exact key first, then the first declared key that occurs in the
  normalized name), then a language-model classifier. The classifier's
  reply is validated against the category names and falls back to
  "Other Expenses" (Schedule C line 27a).
- **Receipt preprocessing and parsing** (`llm.dfy`, module `Llm`):
  - the resize rule that bounds the longest side of an image to 2048
    pixels, in exact integer arithmetic;
  - the empty-PDF check of `preprocess_file`;
  - the clean-up of the vision model's reply: stripping, removing a
    markdown code fence, and coercing the `merchant`, `date` and `amount`
    fields.
- **The upload endpoint** (`upload.dfy`, module `Upload`): `parse_upload`
  as a method on a class `UploadDir`. The class holds the map of stored
  files; the method validates the content type (415) and the size (413),
  stores the original, deletes it again when preprocessing fails (422),
  keeps it when parsing fails (502), and otherwise answers with the
  extracted and categorized fields.
- **The first-run gate** (`app.dfy`, module `App`): the middleware that
  sends every request to `/setup` until an API key is configured. It lets
  `/setup` and everything under `/static` through.
- `text.dfy` (module `Text`) holds the Python string operations these rely
  on (`strip`, `lower`, `in`, `startswith`, `split`, `splitlines`, `join`).
  `wrappers.dfy` holds `Option` and `Result`.

External services are parameters of the model: the correction store, the
two OpenAI calls, the image and PDF libraries, and `json.loads`, `str()`
and `float()`. A `None` stands for a call that raised.

## Model

| member | source | states |
|---|---|---|
| Text.Strip | expenserule/categorization.py:26 | `strip()` leaves no whitespace (Python's `isspace` set) at either end and never lengthens the string |
| Text.StripUnique | expenserule/categorization.py:26 | `strip()` removes exactly the surrounding whitespace: for whitespace `a`, `b` and a stripped `t`, `Strip(a + t + b) == t` |
| Text.StripParts | expenserule/llm.py:97 | every string is its stripped form with whitespace only on either side |
| Text.StripIdempotent | expenserule/llm.py:97 | stripping twice is stripping once |
| Text.Lower | expenserule/categorization.py:26 | `lower()` keeps the length and lowers each character independently |
| Text.LowerIdempotent | expenserule/categorization.py:26 | lowering twice is lowering once |
| Text.ContainsAt | expenserule/categorization.py:36 | `k in s` holds iff `k` occurs in `s` at some position |
| Text.JoinSplit | expenserule/llm.py:101-102 | `"\n".join` of the pieces of a split on newline gives the string back |
| Text.SplitJoin | expenserule/llm.py:101-102 | lines without newlines survive a join followed by a split |
| Text.SplitLines | expenserule/llm.py:101 | `splitlines()` gives no lines exactly for the empty string, and no line holds a newline |
| Text.SplitLinesOfJoin | expenserule/llm.py:101 | for newline-free lines whose last line is not empty, `splitlines()` of their `"\n".join` gives the lines back |
| Categorization.Source.Tag | expenserule/categorization.py:82-108 | each tier has its own tag: "correction_memory" exactly for the correction tier, "lookup" exactly for the lookup tier, "llm" exactly for the classifier |
| Categorization.Normalize | expenserule/categorization.py:24-26 | the key has no whitespace at its ends, no capital letter, and is no longer than the name |
| Categorization.NormalizeIdempotent | expenserule/categorization.py:24-26 | normalizing a normalized key changes nothing |
| Categorization.FindExact | expenserule/categorization.py:32-33 | the exact lookup misses iff no key equals the key, and a hit is the value of an entry with that key |
| Categorization.FindExactAt | expenserule/categorization.py:32-33 | in a table without duplicate keys, the value found is the one stored under the key |
| Categorization.FirstContained | expenserule/categorization.py:35-37 | the scan misses iff no key occurs in the merchant key, and a hit is the category of a key that occurs |
| Categorization.FirstContainedAt | expenserule/categorization.py:35-38 | the scan returns the category of the earliest-declared key that occurs |
| Categorization.Lookup | expenserule/categorization.py:29-38 | `_lookup_table` misses iff no table key occurs in the normalized merchant, and a hit is the category of a key that occurs |
| Categorization.ScanLookupTable | expenserule/categorization.py:29-38 | the membership test followed by the `for` loop computes `Lookup` |
| Categorization.LookupExactWins | expenserule/categorization.py:31-33 | an exact key decides the lookup, even when an earlier key is a substring |
| Categorization.LookupFirstSubstring | expenserule/categorization.py:34-37 | without an exact key, the earliest-declared contained key decides |
| Categorization.ValidateSuggestion | expenserule/categorization.py:57-61 | the result is a category name or "Other Expenses"; the stripped reply is kept iff it is a name |
| Categorization.InexactReplyFallsBack | expenserule/categorization.py:58-61 | a reply that is not exactly a name once stripped becomes "Other Expenses" |
| Categorization.SuggestCategory | expenserule/categorization.py:69-109 | the correction tier answers iff the remembered category is non-empty and has a line, and then with that category; the lookup tier answers iff the correction misses and the lookup finds a non-empty category, and then with that category; otherwise the classifier answers with the validated reply; the line always belongs to the category, or is "27a" for a classifier category without one |
| Categorization.CorrectionWins | expenserule/categorization.py:85-92 | a usable correction is returned whatever the table and the classifier say |
| Categorization.CorrectionMissFallsThrough | expenserule/categorization.py:86-87 | an unusable correction gives the same answer as no correction at all |
| Categorization.LlmConsultedLast | expenserule/categorization.py:103-108 | the classifier's reply changes nothing unless the answer comes from the classifier |
| Categorization.ValidReplySuggested | expenserule/categorization.py:103-108 | when both earlier tiers miss, a reply that is a category name once stripped is the suggestion, with source "llm" |
| Categorization.ExactLookupSuggested | expenserule/categorization.py:94-101 | without a usable correction, an exact table key yields its category, with its line and source "lookup" |
| Categorization.SubstringLookupSuggested | expenserule/categorization.py:94-101 | without a usable correction or an exact key, the earliest contained key yields its category from the lookup tier |
| Categorization.SuggestionInCatalog | expenserule/categorization.py:103-108 | when every category name has a line, every suggestion is a known category with its line, or exactly ("Other Expenses", "27a", llm) |
| Llm.Longest | expenserule/llm.py:38-39 | the longest side is one of the sides and no side exceeds it |
| Llm.ScaleBounds | expenserule/llm.py:40-42 | `side * 2048 / longest` rounded down is the floor of the scaled side, at most the side and at most 2048, and 2048 for the longest side |
| Llm.ScaleSide | expenserule/llm.py:41-42 | a scaled side is the largest `q` with `q * longest <= side * 2048`, never grows, and the longest side becomes 2048 |
| Llm.BoundDims | expenserule/llm.py:38-42 | an image within 2048 pixels keeps its size; a larger one gets its longest side equal to 2048; no side grows |
| Llm.BoundDimsScales | expenserule/llm.py:40-42 | each reduced side is the original side times 2048 / longest, rounded down |
| Llm.BoundDimsNonEmpty | expenserule/llm.py:40-42 | a reduced image keeps both sides positive iff each side times 2048 reaches the longest side |
| Llm.BoundDimsIdempotent | expenserule/llm.py:38-43 | bounding a bounded image changes nothing |
| Llm.PreprocessFile | expenserule/llm.py:46-62 | a PDF with no pages is an error; the result exists iff the first page (PDF) or the decoded image exists; it is that image bounded and at most 2048 pixels on its longest side |
| Llm.UnwrapFences | expenserule/llm.py:99-102 | a reply that does not start with a fence is kept unchanged |
| Llm.UnwrapClosedFence | expenserule/llm.py:100-102 | opening fence line, body lines, closing fence line: the result is the body lines joined |
| Llm.UnwrapOpenFence | expenserule/llm.py:100-102 | with no closing fence line only the opening line is removed |
| Llm.UnwrapBareFence | expenserule/llm.py:100-102 | a reply that is only a fence leaves the empty string |
| Llm.UnwrapOneLineFence | expenserule/llm.py:100-102 | a reply that opens a fence and keeps its JSON text on that same line leaves the empty string to parse |
| Llm.UnwrapFencedRoundTrip | expenserule/llm.py:99-102 | unwrapping a fenced block with any info string gives back exactly the fenced text |
| Llm.Truthy | expenserule/llm.py:107-108 | the falsy JSON values are exactly null, false, 0, the empty string, the empty list and the empty object |
| Llm.CoerceMerchant | expenserule/llm.py:107 | the merchant is always stripped: "" for a missing or falsy value, and otherwise `str()` of the value stripped (the string itself for a string value) |
| Llm.CoerceDate | expenserule/llm.py:108 | the date is absent iff the value is falsy, and otherwise the value itself |
| Llm.CoerceAmount | expenserule/llm.py:109 | the amount is absent iff missing or null; it is an error iff present and not convertible to float; otherwise it is the `float()` of the value (a number kept as is, a boolean 1.0 or 0.0, a string through `float()`) |
| Llm.CoerceFields | expenserule/llm.py:104-110 | a value without `.get` is an error; for an object, the result is an error (a non-numeric amount) iff the amount is present, not null and not convertible; otherwise the merchant is "" when falsy and otherwise `str()` of the value stripped, the date is absent iff falsy and otherwise the value itself, and the amount is absent iff missing or null and otherwise the `float()` of the value |
| Llm.ParseReceipt | expenserule/llm.py:97-110 | a failed call is an error; a parsed merchant is always stripped; a reply without a fence is parsed as its stripped text |
| Llm.ParseFencedReply | expenserule/llm.py:97-104 | a JSON text in a code block is parsed as that JSON text |
| Llm.FencedExampleParsed | expenserule/llm.py:97-110 | the prompt's example object inside a fenced reply yields Staples, 2024-03-15, 42.97 |
| Llm.NullFieldsAbsent | expenserule/llm.py:106-110 | null date and amount become absent fields, not an error |
| Upload.StoredName | expenserule/routers/upload.py:57-67 | the stored name is the upload id followed by the extension of its content type: ".jpg" for JPEG, ".png" for PNG, ".pdf" for PDF |
| Upload.UploadDir.ParseUpload | expenserule/routers/upload.py:30-101 | 415 for a missing or unsupported type and 413 above 20 MB, both with nothing stored; 422 when preprocessing fails, with the stored file removed again; 502 when parsing fails, with the original kept; otherwise the original is kept and the response carries the upload id, the parsed fields and the categorization of the parsed merchant |
| App.FirstRunGate | expenserule/main.py:31-38 | a request is redirected, always to "/setup", iff no key is configured, the path is not "/setup" and it does not start with "/static" |
| App.ConfiguredPassesAll | expenserule/main.py:34 | with a key configured nothing is redirected |
| App.SetupPrefixRedirected | expenserule/main.py:34-37 | only "/setup" itself is exempt: a longer path starting with "/setup" is redirected on first run |
| App.StaticAlwaysServed | expenserule/main.py:34-37 | every path starting with "/static" passes through |

## Left out

- The OpenAI calls (`_llm_suggest`, `parse_receipt`), the prompts, the model name and the token limits are out of scope. Only the reply text is an input, and `None` means the call raised or returned no content.
- `get_correction` and the rest of `expenserule/database.py` are not part of this model. The correction store is a function from the merchant string to an optional category.
- `SCHEDULE_C_CATEGORIES`, `CATEGORY_LINE` and `MERCHANT_LOOKUP` are parameters (`Catalog`), not the constant tables. `SuggestCategory` requires what the source assumes of them (`WellFormed`): no lookup key is declared twice, and every non-empty lookup category has a Schedule C line, since the source subscripts `CATEGORY_LINE` with it.
- `Categorization.SuggestCategory`: a classifier call that raises is not an outcome of this function. It takes the reply text. `Upload.UploadDir.ParseUpload` models the failure: the endpoint does not catch it, so the request ends in a 500.
- Pillow and pdf2image are out of scope: decoding, EXIF transposition, RGB conversion, LANCZOS resampling, JPEG encoding and the 200 dpi rasterization. Their results are the image sizes given as inputs.
- `Llm.BoundDims`: the source computes the scale in floating point and truncates with `int()`. The model uses exact rational arithmetic rounded down, so float rounding (for example a longest side of 2047) is not modelled.
- Pillow's refusal to resize to a zero width or height is not modelled. `Llm.BoundDimsNonEmpty` states exactly when the resize rule produces such a size.
- `json.loads`, `str()` on non-string values and `float()` on strings are oracles (`Decoders`). Only `float()` of numbers and booleans is spelled out.
- Numbers are exact reals, not IEEE doubles. NaN, the infinities and float overflow are not modelled. So the model misses two failures: an amount of `NaN` or `Infinity`, which `json.loads` and `float()` accept but the JSON response refuses (a 500), and an integer amount too large for `float()`, which raises (a 502).
- `splitlines()` is modelled for `"\n"` as the only line terminator. Python also splits at `"\r"`, `"\r\n"` and a few other separators.
- `lower()` is modelled for ASCII letters only. Unicode case mapping is not modelled.
- `parse_upload` is modelled as a handler on its own. `expenserule/main.py` registers only the setup and expense routers (lines 22-23), so the application as written does not serve `POST /upload/parse`. The model does not capture that the route is unreachable.
- `uuid.uuid4().hex` is an input (`uploadId`), and `ensure_dirs` and the uploads path are not modelled. The directory is the `files` map of `UploadDir`.
- The `detail` texts of the HTTP errors are not modelled. Only the status codes are.
- The rest of the repository is out of scope: the upload page route, templates, the setup and expense routers, the CLI and the database schema.
