/**
  * Receipt preprocessing and parsing (expenserule/llm.py): the dimension
  * bound applied before an image is sent to the vision model, the empty-PDF
  * check, and the post-processing of the model's reply into the fields
  * `merchant`, `date` and `amount`.
  *
  * The image libraries, the vision service, `json.loads`, `str()` on
  * non-string values and `float()` on strings are outside the model: their
  * results are parameters.
  */
module Llm {
  import opened Wrappers
  import opened Text

  /** Longest side, in pixels, of an image sent to the model. */
  const MAX_IMAGE_DIM := 2048

  /** The size of an image, after its EXIF orientation has been applied. */
  datatype Dims = Dims(width: nat, height: nat)

  function Longest(d: Dims): (n: nat)
    ensures n == d.width || n == d.height
    ensures d.width <= n && d.height <= n
  {
    if d.width >= d.height then d.width else d.height
  }

  lemma MulLe(a: nat, b: nat, c: nat)
    requires a <= b
    ensures a * c <= b * c
  {
  }

  lemma DivBounds(n: nat, d: nat)
    requires d > 0
    ensures (n / d) * d <= n < (n / d) * d + d
  {
  }

  /** The floor bounds of `side * MAX_IMAGE_DIM / longest`. */
  lemma ScaleBounds(side: nat, longest: nat, n: nat, q: int)
    requires side <= longest && longest > MAX_IMAGE_DIM
    requires n == side * MAX_IMAGE_DIM && q == n / longest
    ensures q * longest <= n < (q + 1) * longest
    ensures 0 <= q <= side && q <= MAX_IMAGE_DIM
    ensures side == longest ==> q == MAX_IMAGE_DIM
  {
    DivBounds(n, longest);
    assert (q + 1) * longest == q * longest + longest;
    MulLe(side, longest, MAX_IMAGE_DIM);
    assert n <= longest * MAX_IMAGE_DIM;
    if q > MAX_IMAGE_DIM {
      MulLe(MAX_IMAGE_DIM + 1, q, longest);
      assert false;
    }
    if q > side {
      MulLe(side + 1, q, longest);
      MulLe(MAX_IMAGE_DIM, longest, side);
      assert false;
    }
    if side == longest && q < MAX_IMAGE_DIM {
      MulLe(q + 1, MAX_IMAGE_DIM, longest);
      assert false;
    }
  }

  /**
    * One side scaled by `MAX_IMAGE_DIM / longest` and rounded down, for a
    * side no longer than `longest`: the largest `q` with
    * `q * longest <= side * MAX_IMAGE_DIM`.
    */
  function ScaleSide(side: nat, longest: nat): (q: nat)
    requires side <= longest && longest > MAX_IMAGE_DIM
    ensures q * longest <= side * MAX_IMAGE_DIM < (q + 1) * longest
    ensures q <= side && q <= MAX_IMAGE_DIM
    ensures side == longest ==> q == MAX_IMAGE_DIM
  {
    var n := side * MAX_IMAGE_DIM;
    ScaleBounds(side, longest, n, n / longest);
    n / longest
  }

  /**
    * The resize rule of `_preprocess_image`: an image whose longest side
    * exceeds `MAX_IMAGE_DIM` has both sides scaled by
    * `MAX_IMAGE_DIM / longest`, rounded down; any other image keeps its size.
    */
  function BoundDims(d: Dims): (r: Dims)
    ensures Longest(d) <= MAX_IMAGE_DIM ==> r == d
    ensures Longest(d) > MAX_IMAGE_DIM ==> Longest(r) == MAX_IMAGE_DIM
    ensures r.width <= d.width && r.height <= d.height
  {
    var longest := Longest(d);
    if longest > MAX_IMAGE_DIM then
      Dims(ScaleSide(d.width, longest), ScaleSide(d.height, longest))
    else
      d
  }

  /**
    * A reduced image keeps the aspect ratio up to rounding: each side is the
    * original side times `MAX_IMAGE_DIM / longest`, rounded down.
    */
  lemma BoundDimsScales(d: Dims)
    requires Longest(d) > MAX_IMAGE_DIM
    ensures var r := BoundDims(d);
      r.width * Longest(d) <= d.width * MAX_IMAGE_DIM < (r.width + 1) * Longest(d)
      && r.height * Longest(d) <= d.height * MAX_IMAGE_DIM < (r.height + 1) * Longest(d)
  {
  }

  /**
    * A reduction keeps both sides at least one pixel exactly when each side
    * times `MAX_IMAGE_DIM` reaches the longest side; a narrower image has a
    * side rounded down to zero.
    */
  lemma BoundDimsNonEmpty(d: Dims)
    requires d.width > 0 && d.height > 0
    ensures var r := BoundDims(d);
      (r.width > 0 && r.height > 0)
      <==> (d.width * MAX_IMAGE_DIM >= Longest(d) && d.height * MAX_IMAGE_DIM >= Longest(d))
  {
    var longest := Longest(d);
    if longest <= MAX_IMAGE_DIM {
      MulLe(1, d.width, MAX_IMAGE_DIM);
      MulLe(1, d.height, MAX_IMAGE_DIM);
    } else {
      BoundDimsScales(d);
      SidePositive(d.width, longest);
      SidePositive(d.height, longest);
    }
  }

  /** The scaled side is positive exactly when `side * MAX_IMAGE_DIM` reaches `longest`. */
  lemma SidePositive(side: nat, longest: nat)
    requires side <= longest && longest > MAX_IMAGE_DIM
    ensures ScaleSide(side, longest) > 0 <==> side * MAX_IMAGE_DIM >= longest
  {
    var q := ScaleSide(side, longest);
    if q > 0 {
      MulLe(1, q, longest);
    }
  }

  /** Bounding a bounded image changes nothing. */
  lemma BoundDimsIdempotent(d: Dims)
    ensures BoundDims(BoundDims(d)) == BoundDims(d)
  {
  }

  /** Why `preprocess_file` could not produce an image. */
  datatype ConversionError =
    | NoPdfPages    // "PDF produced no pages"
    | Unreadable    // the PDF rasterizer or the image decoder raised

  const PDF_CONTENT_TYPE := "application/pdf"

  /**
    * `preprocess_file`: the size of the JPEG it encodes. A PDF is
    * rasterized (`pdfPages`, `None` when the rasterizer raises) and its first
    * page used; anything else is decoded as an image (`decoded`, `None` when
    * the decoder raises).
    */
  function PreprocessFile(contentType: string, pdfPages: Option<seq<Dims>>, decoded: Option<Dims>)
    : (r: Result<Dims, ConversionError>)
    ensures contentType == PDF_CONTENT_TYPE && pdfPages == Some([]) ==> r == Err(NoPdfPages)
    ensures r.Ok? <==>
      if contentType == PDF_CONTENT_TYPE then pdfPages.Some? && pdfPages.value != [] else decoded.Some?
    ensures r.Ok? ==> Longest(r.value) <= MAX_IMAGE_DIM
    ensures r.Ok? && contentType == PDF_CONTENT_TYPE ==> r.value == BoundDims(pdfPages.value[0])
    ensures r.Ok? && contentType != PDF_CONTENT_TYPE ==> r.value == BoundDims(decoded.value)
  {
    if contentType == PDF_CONTENT_TYPE then
      match pdfPages
      case None => Err(Unreadable)
      case Some(pages) =>
        if pages == [] then Err(NoPdfPages) else Ok(BoundDims(pages[0]))
    else
      match decoded
      case None => Err(Unreadable)
      case Some(img) => Ok(BoundDims(img))
  }

  // ---------------------------------------------------------------------------
  // The model's reply
  // ---------------------------------------------------------------------------

  /** A markdown code fence. */
  const FENCE := "```"

  /** `lines[1:-1]`. */
  function InnerLines(lines: seq<string>): seq<string> {
    if |lines| >= 2 then lines[1..|lines| - 1] else []
  }

  /** `line.strip() == "```"`: a line that closes a code block. */
  predicate IsClosingFence(line: string) {
    Strip(line) == FENCE
  }

  /**
    * The fence stripping in `parse_receipt`: a reply starting with a fence
    * loses its first line, and its last line too when that line is a fence
    * once stripped; any other reply is kept as it is.
    */
  function UnwrapFences(raw: string): (r: string)
    ensures !StartsWith(raw, FENCE) ==> r == raw
  {
    if StartsWith(raw, FENCE) then
      var lines := SplitLines(raw);
      if IsClosingFence(lines[|lines| - 1]) then Join(InnerLines(lines)) else Join(lines[1..])
    else
      raw
  }

  /**
    * A reply made of an opening fence line, any lines, and a closing line
    * that is a fence once stripped loses its first and last lines.
    */
  lemma UnwrapClosedFence(first: string, middle: seq<string>, last: string)
    requires StartsWith(first, FENCE) && IsClosingFence(last)
    requires NoNewlines([first] + middle + [last])
    ensures UnwrapFences(Join([first] + middle + [last])) == Join(middle)
  {
    var lines := [first] + middle + [last];
    assert IsClosingFence(lines[|lines| - 1]) by {
      assert lines[|lines| - 1] == last;
    }
    assert InnerLines(lines) == middle;
    assert SplitLines(Join(lines)) == lines by {
      assert |last| > 0;
      SplitLinesOfJoin(lines);
    }
    assert StartsWith(Join(lines), FENCE) by {
      JoinStartsWithFirst(lines);
      assert Join(lines)[..|FENCE|] == first[..|FENCE|];
    }
    UnwrapKnownLines(Join(lines), lines);
  }

  /**
    * A reply with an opening fence line and no closing fence line loses only
    * its first line.
    */
  lemma UnwrapOpenFence(first: string, rest: seq<string>)
    requires StartsWith(first, FENCE) && |rest| >= 1
    requires NoNewlines([first] + rest)
    requires rest[|rest| - 1] != [] && !IsClosingFence(rest[|rest| - 1])
    ensures UnwrapFences(Join([first] + rest)) == Join(rest)
  {
    FencedLines(first, rest);
    OpenFenceLines([first] + rest, first, rest);
  }

  /** The lines of a reply that starts with a fence line. */
  lemma FencedLines(first: string, rest: seq<string>)
    requires StartsWith(first, FENCE)
    requires NoNewlines([first] + rest)
    requires rest == [] || rest[|rest| - 1] != []
    ensures SplitLines(Join([first] + rest)) == [first] + rest
    ensures StartsWith(Join([first] + rest), FENCE)
  {
    var lines := [first] + rest;
    assert lines[|lines| - 1] != [] by {
      if rest != [] {
        assert lines[|lines| - 1] == rest[|rest| - 1];
      }
    }
    SplitLinesOfJoin(lines);
    JoinStartsWithFirst(lines);
    assert Join(lines)[..|FENCE|] == first[..|FENCE|];
  }

  lemma OpenFenceLines(lines: seq<string>, first: string, rest: seq<string>)
    requires lines == [first] + rest && |rest| >= 1
    requires StartsWith(Join(lines), FENCE) && SplitLines(Join(lines)) == lines
    requires !IsClosingFence(rest[|rest| - 1])
    ensures UnwrapFences(Join([first] + rest)) == Join(rest)
  {
    assert lines[1..] == rest;
    assert lines[|lines| - 1] == rest[|rest| - 1];
    UnwrapKnownLines(Join(lines), lines);
  }

  /** `UnwrapFences` on a fenced reply whose lines are known. */
  lemma UnwrapKnownLines(raw: string, lines: seq<string>)
    requires StartsWith(raw, FENCE) && SplitLines(raw) == lines
    ensures |lines| >= 1
    ensures IsClosingFence(lines[|lines| - 1]) ==> UnwrapFences(raw) == Join(InnerLines(lines))
    ensures !IsClosingFence(lines[|lines| - 1]) ==> UnwrapFences(raw) == Join(lines[1..])
  {
  }

  /** A bare fence leaves nothing to parse. */
  lemma UnwrapBareFence()
    ensures UnwrapFences(FENCE) == ""
  {
    SplitLinesOfJoin([FENCE]);
    assert Strip(FENCE) == FENCE by {
      StripUnique([], FENCE, []);
      assert [] + FENCE + [] == FENCE;
    }
  }

  /**
    * A reply that opens a fence and holds everything on that one line, such
    * as "```json {...}```", has no line after the first: nothing is left to
    * parse.
    */
  lemma UnwrapOneLineFence(raw: string)
    requires StartsWith(raw, FENCE) && '\n' !in raw
    requires !IsClosingFence(raw)
    ensures UnwrapFences(raw) == ""
  {
    assert Join([raw]) == raw;
    SplitLinesOfJoin([raw]);
  }

  /** A JSON text wrapped in a markdown code block, with an info string such as `json`. */
  function Fenced(info: string, body: string): string {
    FENCE + info + "\n" + body + "\n" + FENCE
  }

  /** Unwrapping a fenced block gives back exactly the text that was fenced. */
  lemma UnwrapFencedRoundTrip(info: string, body: string)
    requires '\n' !in info
    ensures UnwrapFences(Fenced(info, body)) == body
  {
    var first := FENCE + info;
    var middle := Split(body);
    assert '\n' !in first;
    assert Strip(FENCE) == FENCE by {
      StripUnique([], FENCE, []);
      assert [] + FENCE + [] == FENCE;
    }
    JoinSplit(body);
    assert Join([FENCE]) == FENCE;
    assert Join(middle + [FENCE]) == body + "\n" + FENCE by {
      JoinAppendLast(middle, FENCE);
    }
    assert Join([first] + middle + [FENCE]) == first + "\n" + Join(middle + [FENCE]) by {
      assert ([first] + middle + [FENCE])[1..] == middle + [FENCE];
    }
    assert Fenced(info, body) == Join([first] + middle + [FENCE]);
    UnwrapClosedFence(first, middle, FENCE);
  }

  /** A value produced by `json.loads`. */
  datatype Json =
    | Null
    | Bool(b: bool)
    | Num(x: real)
    | Str(s: string)
    | Arr(items: seq<Json>)
    | Obj(fields: map<string, Json>)

  /** Python truthiness of a parsed JSON value. */
  predicate Truthy(v: Json)
    ensures !Truthy(v) <==> v in {Null, Bool(false), Num(0.0), Str(""), Arr([]), Obj(map[])}
  {
    match v
    case Null => false
    case Bool(b) => b
    case Num(x) => x != 0.0
    case Str(s) => s != []
    case Arr(items) => items != []
    case Obj(fields) => fields != map[]
  }

  /** `parsed.get(key)`: a missing key reads as `None`, like a JSON null. */
  function Get(fields: map<string, Json>, key: string): Json {
    if key in fields then fields[key] else Null
  }

  /**
    * The library calls the parser relies on: `json.loads` (`None` when it
    * raises), `str()` of a value that is not a string, and `float()` of a
    * string (`None` when it raises).
    */
  datatype Decoders = Decoders(loads: string -> Option<Json>, str: Json -> string, float: string -> Option<real>)

  /** The dict `parse_receipt` returns. */
  datatype Extracted = Extracted(merchant: string, date: Option<Json>, amount: Option<real>)

  /** Why `parse_receipt` raised. */
  datatype ExtractionError =
    | RemoteFailed        // the vision call raised or returned no text
    | InvalidJson         // json.loads raised
    | NotAnObject         // the JSON value has no `.get`
    | AmountNotNumeric    // float(amount) raised

  /** `float(v)` for a value other than `None`. */
  function ToFloat(v: Json, dec: Decoders): Option<real> {
    match v
    case Num(x) => Some(x)
    case Bool(b) => Some(if b then 1.0 else 0.0)
    case Str(s) => dec.float(s)
    case _ => None
  }

  /** `str(v)`. */
  function ToStr(v: Json, dec: Decoders): string {
    if v.Str? then v.s else dec.str(v)
  }

  /** `str(parsed.get("merchant") or "").strip()`. */
  function CoerceMerchant(m: Json, dec: Decoders): (merchant: string)
    ensures Stripped(merchant)
    ensures !Truthy(m) ==> merchant == ""
    ensures m.Str? ==> merchant == Strip(m.s)
    ensures Truthy(m) ==> merchant == Strip(ToStr(m, dec))
  {
    if Truthy(m) then Strip(ToStr(m, dec)) else Strip("")
  }

  /** `parsed.get("date") or None`. */
  function CoerceDate(d: Json): (date: Option<Json>)
    ensures date == None <==> !Truthy(d)
    ensures date.Some? ==> date.value == d
  {
    if Truthy(d) then Some(d) else None
  }

  /** `float(parsed["amount"]) if parsed.get("amount") is not None else None`. */
  function CoerceAmount(a: Json, dec: Decoders): (amount: Result<Option<real>, ExtractionError>)
    ensures amount.Err? <==> a != Null && ToFloat(a, dec).None?
    ensures amount.Err? ==> amount.error == AmountNotNumeric
    ensures amount.Ok? ==> (amount.value == None <==> a == Null)
    ensures a.Num? ==> amount == Ok(Some(a.x))
    ensures amount.Ok? && a != Null ==> amount.value == ToFloat(a, dec)
  {
    if a == Null then Ok(None)
    else
      match ToFloat(a, dec)
      case None => Err(AmountNotNumeric)
      case Some(x) => Ok(Some(x))
  }

  /**
    * The field coercion at the end of `parse_receipt`: `merchant` is always a
    * stripped string, `""` for a missing or falsy value; `date` is kept only
    * when truthy; `amount` is absent only when missing or null, and otherwise
    * must convert to a number.
    */
  function CoerceFields(parsed: Json, dec: Decoders): (r: Result<Extracted, ExtractionError>)
    ensures !parsed.Obj? ==> r == Err(NotAnObject)
    ensures parsed.Obj? ==>
      var amount := Get(parsed.fields, "amount");
      (r.Err? <==> amount != Null && ToFloat(amount, dec).None?)
      && (r.Err? ==> r.error == AmountNotNumeric)
    ensures parsed.Obj? && r.Ok? && Get(parsed.fields, "amount") != Null ==>
      r.value.amount == ToFloat(Get(parsed.fields, "amount"), dec)
    ensures parsed.Obj? && r.Ok? ==>
      var merchant := Get(parsed.fields, "merchant");
      var date := Get(parsed.fields, "date");
      var amount := Get(parsed.fields, "amount");
      && Stripped(r.value.merchant)
      && (!Truthy(merchant) ==> r.value.merchant == "")
      && (merchant.Str? ==> r.value.merchant == Strip(merchant.s))
      && (Truthy(merchant) ==> r.value.merchant == Strip(ToStr(merchant, dec)))
      && (r.value.date == None <==> !Truthy(date))
      && (r.value.date.Some? ==> r.value.date.value == date)
      && (r.value.amount == None <==> amount == Null)
      && (amount.Num? ==> r.value.amount == Some(amount.x))
  {
    if !parsed.Obj? then Err(NotAnObject)
    else
      var merchant := CoerceMerchant(Get(parsed.fields, "merchant"), dec);
      var date := CoerceDate(Get(parsed.fields, "date"));
      match CoerceAmount(Get(parsed.fields, "amount"), dec)
      case Err(e) => Err(e)
      case Ok(amount) => Ok(Extracted(merchant, date, amount))
  }

  /**
    * `parse_receipt` from the vision service's reply on: strip it, unwrap a
    * code fence, parse the JSON, coerce the fields.
    */
  function ParseReceipt(reply: Option<string>, dec: Decoders): (r: Result<Extracted, ExtractionError>)
    ensures reply.None? ==> r == Err(RemoteFailed)
    ensures r.Ok? ==> Stripped(r.value.merchant)
    ensures reply.Some? && !StartsWith(Strip(reply.value), FENCE) ==>
      r == (match dec.loads(Strip(reply.value))
            case None => Err(InvalidJson)
            case Some(v) => CoerceFields(v, dec))
  {
    if reply.None? then Err(RemoteFailed)
    else
      var raw := UnwrapFences(Strip(reply.value));
      match dec.loads(raw)
      case None => Err(InvalidJson)
      case Some(parsed) => CoerceFields(parsed, dec)
  }

  /** A reply that is a JSON text in a code block is parsed as that JSON text. */
  lemma ParseFencedReply(info: string, body: string, dec: Decoders)
    requires '\n' !in info
    ensures ParseReceipt(Some(Fenced(info, body)), dec)
         == (match dec.loads(body)
             case None => Err(InvalidJson)
             case Some(v) => CoerceFields(v, dec))
  {
    var raw := Fenced(info, body);
    assert raw == FENCE + (info + "\n" + body + "\n" + FENCE);
    assert Stripped(raw);
    StripUnique([], raw, []);
    assert [] + raw + [] == raw;
    UnwrapFencedRoundTrip(info, body);
  }

  /**
    * A fenced reply carrying the example object of the extraction prompt
    * yields exactly its three fields.
    */
  lemma FencedExampleParsed(body: string, dec: Decoders)
    requires dec.loads(body)
          == Some(Obj(map["merchant" := Str("Staples"), "date" := Str("2024-03-15"), "amount" := Num(42.97)]))
    ensures ParseReceipt(Some(Fenced("json", body)), dec)
         == Ok(Extracted("Staples", Some(Str("2024-03-15")), Some(42.97)))
  {
    var fields := map["merchant" := Str("Staples"), "date" := Str("2024-03-15"), "amount" := Num(42.97)];
    ParseFencedReply("json", body, dec);
    StripUnique([], "Staples", []);
    assert [] + "Staples" + [] == "Staples";
    assert Get(fields, "merchant") == Str("Staples");
    assert Get(fields, "date") == Str("2024-03-15");
    assert Get(fields, "amount") == Num(42.97);
    assert CoerceFields(Obj(fields), dec) == Ok(Extracted("Staples", Some(Str("2024-03-15")), Some(42.97)));
  }

  /** Null date and amount are absent fields, not an error. */
  lemma NullFieldsAbsent(reply: string, dec: Decoders)
    requires !StartsWith(Strip(reply), FENCE)
    requires dec.loads(Strip(reply)) == Some(Obj(map["merchant" := Str("Acme"), "date" := Null, "amount" := Null]))
    ensures ParseReceipt(Some(reply), dec) == Ok(Extracted("Acme", None, None))
  {
    StripUnique([], "Acme", []);
    assert [] + "Acme" + [] == "Acme";
  }
}
