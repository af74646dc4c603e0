/** The ASGI front end for an interaction server (yuyo/asgi.py): the
  * adapter that answers HTTP requests and lifespan events, and the bot that
  * wraps it.
  *
  * Byte strings are modelled as strings whose characters are all below
  * 256, one character per byte. */
module Asgi {
  import opened Wrappers
  import Strings

  type Bytes = string

  const CONTENT_TYPE_KEY: Bytes := "content-type"
  const RAW_JSON_CONTENT_TYPE: Bytes := "application/json"
  const JSON_CONTENT_TYPE: Bytes := "application/json; charset=UTF-8"
  const OCTET_STREAM_CONTENT_TYPE: Bytes := "application/octet-stream"
  const BAD_REQUEST_STATUS: int := 400
  const X_SIGNATURE_ED25519_HEADER: Bytes := "x-signature-ed25519"
  const X_SIGNATURE_TIMESTAMP_HEADER: Bytes := "x-signature-timestamp"
  const MULTIPART_CONTENT_TYPE: Bytes := "multipart/form-data; boundary="
  const TEXT_CONTENT_TYPE: Bytes := "text/plain; charset=UTF-8"

  /** The default `max_body_size`: one mebibyte. */
  const DEFAULT_MAX_BODY_SIZE: int := 1024 * 1024

  /** A byte string is truthy when it is not empty. */
  predicate Truthy(b: Option<Bytes>)
  {
    b.Some? && |b.value| != 0
  }

  // ---------------------------------------------------------------------
  // Hexadecimal signatures

  /** The whitespace `bytes.fromhex` skips between byte pairs. */
  predicate IsHexSpace(c: char)
  {
    c == ' ' || c == '\t' || c == '\n' || c == '\r' || c as int == 11 || c as int == 12
  }

  /** The value of a hexadecimal digit of either case. */
  function HexValue(c: char): (r: Option<nat>)
    ensures r.Some? ==> r.value < 16
  {
    if '0' <= c <= '9' then Some(c as int - '0' as int)
    else if 'a' <= c <= 'f' then Some(c as int - 'a' as int + 10)
    else if 'A' <= c <= 'F' then Some(c as int - 'A' as int + 10)
    else None
  }

  /** `bytes.fromhex`: pairs of hexadecimal digits, each giving one byte,
    * with whitespace allowed before each pair and at the end; anything
    * else is a `ValueError`. */
  function FromHex(s: string): (r: Option<Bytes>)
    ensures r.Some? ==> forall i :: 0 <= i < |r.value| ==> r.value[i] as int < 256
    decreases |s|
  {
    if |s| == 0 then Some("")
    else if IsHexSpace(s[0]) then FromHex(s[1..])
    else if |s| >= 2 && HexValue(s[0]).Some? && HexValue(s[1]).Some? then
      match FromHex(s[2..])
      case None => None
      case Some(rest) => Some([(HexValue(s[0]).value * 16 + HexValue(s[1]).value) as char] + rest)
    else None
  }

  const HEX_DIGITS: string := "0123456789abcdef"

  /** `bytes.hex()`: two lower-case hexadecimal digits per byte. */
  function ToHex(b: Bytes): (s: string)
    requires forall i :: 0 <= i < |b| ==> b[i] as int < 256
    ensures |s| == 2 * |b|
  {
    if |b| == 0 then ""
    else [HEX_DIGITS[b[0] as int / 16], HEX_DIGITS[b[0] as int % 16]] + ToHex(b[1..])
  }

  /** Reading back the digits `ToHex` writes gives the bytes. */
  lemma {:induction false} FromHexToHex(b: Bytes)
    requires forall i :: 0 <= i < |b| ==> b[i] as int < 256
    ensures FromHex(ToHex(b)) == Some(b)
  {
    if |b| != 0 {
      var hi, lo := b[0] as int / 16, b[0] as int % 16;
      HexDigitValue(hi);
      HexDigitValue(lo);
      FromHexToHex(b[1..]);
      FromHexPair(HEX_DIGITS[hi], HEX_DIGITS[lo], ToHex(b[1..]));
      assert ((hi * 16 + lo) as char) == b[0];
      assert [b[0]] + b[1..] == b;
    }
  }

  /** One pair of digits in front of the rest. */
  lemma FromHexPair(x: char, y: char, rest: string)
    requires HexValue(x).Some? && HexValue(y).Some?
    ensures FromHex([x, y] + rest) ==
      match FromHex(rest)
      case None => None
      case Some(r) => Some([(HexValue(x).value * 16 + HexValue(y).value) as char] + r)
  {
    var s := [x, y] + rest;
    assert s[0] == x && s[1] == y && s[2..] == rest;
    assert !IsHexSpace(x);
  }

  lemma HexDigitValue(d: nat)
    requires d < 16
    ensures HexValue(HEX_DIGITS[d]) == Some(d)
  {
    if d < 10 {
      assert HEX_DIGITS[d] as int == '0' as int + d;
    } else {
      assert HEX_DIGITS[d] as int == 'a' as int + d - 10;
    }
  }

  /** A lone digit is not a byte. */
  lemma FromHexOddDigit()
    ensures FromHex("a").None? && FromHex("ab c").None?
  {
    assert "ab c"[2..] == " c";
    assert " c"[1..] == "c";
  }

  /** The signature header's value: ASCII text decoded from hexadecimal,
    * `None` for a non-ASCII byte (`UnicodeDecodeError`) or bad hexadecimal
    * (`ValueError`). */
  function DecodeSignature(value: Bytes): (r: Option<Bytes>)
    ensures (exists i :: 0 <= i < |value| && value[i] as int >= 128) ==> r.None?
    ensures (forall i :: 0 <= i < |value| ==> value[i] as int < 128) ==> r == FromHex(value)
  {
    if exists i :: 0 <= i < |value| && value[i] as int >= 128 then None else FromHex(value)
  }

  // ---------------------------------------------------------------------
  // Request headers

  /** The three headers `_find_headers` looks for; `None` for absent. */
  datatype Found = Found(contentType: Option<Bytes>, signature: Option<Bytes>, timestamp: Option<Bytes>)

  const NOTHING_FOUND: Found := Found(None, None, None)

  /** The scan `_find_headers` makes from `acc` on: names compared in lower
    * case, a later header overriding an earlier one, and the scan stopping
    * as soon as a header is found while the other two are already truthy.
    * `None` is a signature header that does not decode. */
  function Scan(headers: seq<(Bytes, Bytes)>, acc: Found): (r: Option<Found>)
    ensures headers == [] ==> r == Some(acc)
    ensures r.Some? ==> (acc.contentType.Some? ==> r.value.contentType.Some?)
                        && (acc.signature.Some? ==> r.value.signature.Some?)
                        && (acc.timestamp.Some? ==> r.value.timestamp.Some?)
  {
    if |headers| == 0 then Some(acc)
    else
      var name := Strings.LowerAll(headers[0].0);
      var value := headers[0].1;
      if name == X_SIGNATURE_ED25519_HEADER then
        match DecodeSignature(value)
        case None => None
        case Some(sig) =>
          var next := acc.(signature := Some(sig));
          if Truthy(acc.timestamp) && Truthy(acc.contentType) then Some(next) else Scan(headers[1..], next)
      else if name == X_SIGNATURE_TIMESTAMP_HEADER then
        var next := acc.(timestamp := Some(value));
        if Truthy(acc.signature) && Truthy(acc.contentType) then Some(next) else Scan(headers[1..], next)
      else if name == CONTENT_TYPE_KEY then
        var next := acc.(contentType := Some(value));
        if Truthy(acc.signature) && Truthy(acc.timestamp) then Some(next) else Scan(headers[1..], next)
      else Scan(headers[1..], acc)
  }

  /** `_find_headers`. */
  method FindHeaders(headers: seq<(Bytes, Bytes)>) returns (r: Option<Found>)
    ensures r == Scan(headers, NOTHING_FOUND)
  {
    var found := NOTHING_FOUND;
    var i := 0;
    while i < |headers|
      invariant 0 <= i <= |headers|
      invariant Scan(headers, NOTHING_FOUND) == Scan(headers[i..], found)
    {
      assert headers[i..][1..] == headers[i + 1..];
      var name := Strings.LowerAll(headers[i].0);
      var value := headers[i].1;
      if name == X_SIGNATURE_ED25519_HEADER {
        var sig := DecodeSignature(value);
        if sig.None? {
          return None;
        }
        var before := found;
        found := found.(signature := sig);
        if Truthy(before.timestamp) && Truthy(before.contentType) {
          break;
        }
      } else if name == X_SIGNATURE_TIMESTAMP_HEADER {
        var before := found;
        found := found.(timestamp := Some(value));
        if Truthy(before.signature) && Truthy(before.contentType) {
          break;
        }
      } else if name == CONTENT_TYPE_KEY {
        var before := found;
        found := found.(contentType := Some(value));
        if Truthy(before.signature) && Truthy(before.timestamp) {
          break;
        }
      }
      i := i + 1;
    }
    return Some(found);
  }

  /** Header names match whatever their case. */
  lemma {:induction false} ScanIgnoresCase(h1: seq<(Bytes, Bytes)>, h2: seq<(Bytes, Bytes)>, acc: Found)
    requires |h1| == |h2|
    requires forall i :: 0 <= i < |h1| ==> Strings.LowerAll(h1[i].0) == Strings.LowerAll(h2[i].0) && h1[i].1 == h2[i].1
    ensures Scan(h1, acc) == Scan(h2, acc)
  {
    if |h1| != 0 {
      forall next: Found {
        ScanIgnoresCase(h1[1..], h2[1..], next);
      }
    }
  }

  /** Every value found comes from a header of that name, and a signature
    * is the decoding of its header's value. */
  lemma {:induction false} ScanSound(headers: seq<(Bytes, Bytes)>, acc: Found, f: Found)
    requires Scan(headers, acc) == Some(f)
    ensures f.contentType != acc.contentType ==>
      exists i :: 0 <= i < |headers| && Strings.LowerAll(headers[i].0) == CONTENT_TYPE_KEY && f.contentType == Some(headers[i].1)
    ensures f.timestamp != acc.timestamp ==>
      exists i :: 0 <= i < |headers| && Strings.LowerAll(headers[i].0) == X_SIGNATURE_TIMESTAMP_HEADER
                  && f.timestamp == Some(headers[i].1)
    ensures f.signature != acc.signature ==>
      exists i :: 0 <= i < |headers| && Strings.LowerAll(headers[i].0) == X_SIGNATURE_ED25519_HEADER
                  && f.signature == DecodeSignature(headers[i].1)
  {
    if |headers| != 0 {
      var name := Strings.LowerAll(headers[0].0);
      var next :=
        if name == X_SIGNATURE_ED25519_HEADER then acc.(signature := DecodeSignature(headers[0].1))
        else if name == X_SIGNATURE_TIMESTAMP_HEADER then acc.(timestamp := Some(headers[0].1))
        else if name == CONTENT_TYPE_KEY then acc.(contentType := Some(headers[0].1))
        else acc;
      if Scan(headers[1..], next) == Some(f) {
        ScanSound(headers[1..], next, f);
        forall j | 0 <= j < |headers[1..]| ensures headers[1..][j] == headers[j + 1] { }
      }
    }
  }

  /** A header that is absent from the result is absent from the request:
    * the scan only stops early once all three are present. */
  lemma {:induction false} ScanComplete(headers: seq<(Bytes, Bytes)>, acc: Found, f: Found)
    requires Scan(headers, acc) == Some(f)
    ensures f.contentType.None? ==>
      acc.contentType.None? && forall i :: 0 <= i < |headers| ==> Strings.LowerAll(headers[i].0) != CONTENT_TYPE_KEY
    ensures f.timestamp.None? ==>
      acc.timestamp.None? && forall i :: 0 <= i < |headers| ==> Strings.LowerAll(headers[i].0) != X_SIGNATURE_TIMESTAMP_HEADER
    ensures f.signature.None? ==>
      acc.signature.None? && forall i :: 0 <= i < |headers| ==> Strings.LowerAll(headers[i].0) != X_SIGNATURE_ED25519_HEADER
  {
    if |headers| != 0 {
      var name := Strings.LowerAll(headers[0].0);
      var next :=
        if name == X_SIGNATURE_ED25519_HEADER then acc.(signature := DecodeSignature(headers[0].1))
        else if name == X_SIGNATURE_TIMESTAMP_HEADER then acc.(timestamp := Some(headers[0].1))
        else if name == CONTENT_TYPE_KEY then acc.(contentType := Some(headers[0].1))
        else acc;
      if Scan(headers[1..], next) == Some(f) {
        ScanComplete(headers[1..], next, f);
        forall j | 0 <= j < |headers[1..]| ensures headers[1..][j] == headers[j + 1] { }
      }
    }
  }

  /** The scan fails only on a signature header that does not decode, and
    * always succeeds when every signature header decodes. */
  lemma {:induction false} ScanFails(headers: seq<(Bytes, Bytes)>, acc: Found)
    ensures Scan(headers, acc).None? ==>
      exists i :: 0 <= i < |headers| && Strings.LowerAll(headers[i].0) == X_SIGNATURE_ED25519_HEADER
                  && DecodeSignature(headers[i].1).None?
    ensures (forall i :: 0 <= i < |headers| && Strings.LowerAll(headers[i].0) == X_SIGNATURE_ED25519_HEADER
               ==> DecodeSignature(headers[i].1).Some?)
            ==> Scan(headers, acc).Some?
  {
    if |headers| != 0 {
      var name := Strings.LowerAll(headers[0].0);
      var next :=
        if name == X_SIGNATURE_ED25519_HEADER then acc.(signature := DecodeSignature(headers[0].1))
        else if name == X_SIGNATURE_TIMESTAMP_HEADER then acc.(timestamp := Some(headers[0].1))
        else if name == CONTENT_TYPE_KEY then acc.(contentType := Some(headers[0].1))
        else acc;
      ScanFails(headers[1..], next);
      forall j | 0 <= j < |headers[1..]| ensures headers[1..][j] == headers[j + 1] { }
    }
  }

  /** The media type of a Content-Type value: everything before the first
    * ';'. */
  function MediaType(value: Bytes): (r: Bytes)
    ensures r <= value && ';' !in r
    ensures |r| < |value| ==> value[|r|] == ';'
  {
    if |value| == 0 || value[0] == ';' then "" else [value[0]] + MediaType(value[1..])
  }

  /** The Content-Type check: present, non-empty, and its media type in
    * lower case is application/json. */
  predicate JsonContentType(contentType: Option<Bytes>)
  {
    Truthy(contentType) && MediaType(Strings.LowerAll(contentType.value)) == RAW_JSON_CONTENT_TYPE
  }

  /** Any casing of application/json is accepted, alone or followed by
    * parameters. */
  lemma JsonContentTypeAccepts(t: Bytes, params: Bytes)
    requires Strings.LowerAll(t) == RAW_JSON_CONTENT_TYPE
    ensures JsonContentType(Some(t))
    ensures JsonContentType(Some(t + ";" + params))
  {
    var m := RAW_JSON_CONTENT_TYPE;
    JsonHasNoSemicolon();
    MediaTypeOf(m, "");
    assert m + "" == m;
    LowerWithParams(t, params);
    MediaTypeOf(m, ";" + Strings.LowerAll(params));
  }

  lemma JsonHasNoSemicolon()
    ensures ';' !in RAW_JSON_CONTENT_TYPE
  {
    var m := RAW_JSON_CONTENT_TYPE;
    forall i | 0 <= i < |m| ensures m[i] != ';' { }
  }

  lemma LowerWithParams(t: Bytes, params: Bytes)
    ensures Strings.LowerAll(t + ";" + params) == Strings.LowerAll(t) + (";" + Strings.LowerAll(params))
  {
    LowerAllConcat(t + ";", params);
    LowerAllConcat(t, ";");
    assert Strings.LowerAll(";") == ";";
  }

  lemma LowerAllConcat(a: string, b: string)
    ensures Strings.LowerAll(a + b) == Strings.LowerAll(a) + Strings.LowerAll(b)
  {
  }

  /** The media type of `m` followed by parameters is `m`. */
  lemma {:induction false} MediaTypeOf(m: Bytes, rest: Bytes)
    requires ';' !in m
    ensures MediaType(m + rest) == m || (rest != "" && rest[0] != ';')
    ensures rest == "" || rest[0] == ';' ==> MediaType(m + rest) == m
  {
    if |m| == 0 {
      assert m + rest == rest;
    } else {
      assert (m + rest)[1..] == m[1..] + rest;
      MediaTypeOf(m[1..], rest);
    }
  }

  /** A type that merely starts with application/json is refused. */
  lemma JsonContentTypeRefusesLonger()
    ensures !JsonContentType(Some("application/jsonp"))
    ensures !JsonContentType(None) && !JsonContentType(Some(""))
  {
    var v := "application/jsonp";
    assert Strings.LowerAll(v) == v;
    assert ';' !in v;
    assert MediaType(v) == v;
  }

  // ---------------------------------------------------------------------
  // Request body

  /** One message from `receive` while the body is read; an absent body is
    * "" and an absent `more_body` is false. */
  datatype Received = Received(body: Bytes, moreBody: bool)

  /** What `receive` gives once the client has gone: `http.disconnect`,
    * which has neither field. */
  const DISCONNECT: Received := Received("", false)

  /** The `k`-th message `receive` gives. */
  function ReceiveAt(msgs: seq<Received>, k: nat): (m: Received)
    ensures k >= |msgs| ==> m == DISCONNECT
  {
    if k < |msgs| then msgs[k] else DISCONNECT
  }

  /** The body of the first `n` messages, joined in order. */
  function BodiesUpTo(msgs: seq<Received>, n: nat): Bytes
  {
    if n == 0 then "" else BodiesUpTo(msgs, n - 1) + ReceiveAt(msgs, n - 1).body
  }

  /** The outcome of the body loop, with the number of messages taken. */
  datatype BodyRead = TooLarge(receives: nat) | Read(body: Bytes, receives: nat)

  /** The body loop from the `k`-th message on, with `body` read so far. */
  function ReadBodyFrom(msgs: seq<Received>, k: nat, body: Bytes, maxBodySize: int): (r: BodyRead)
    requires k <= |msgs|
    ensures k < r.receives <= |msgs| + 1
    ensures r.Read? ==> body <= r.body && |r.body| <= maxBodySize
    decreases |msgs| - k
  {
    var m := ReceiveAt(msgs, k);
    var joined := body + m.body;
    if |joined| > maxBodySize then TooLarge(k + 1)
    else if !m.moreBody then Read(joined, k + 1)
    else ReadBodyFrom(msgs, k + 1, joined, maxBodySize)
  }

  function ReadBody(msgs: seq<Received>, maxBodySize: int): (r: BodyRead)
    ensures 1 <= r.receives <= |msgs| + 1
    ensures r.Read? ==> |r.body| <= maxBodySize
  {
    ReadBodyFrom(msgs, 0, "", maxBodySize)
  }

  /** The body loop of `_process_request`: the chunks are joined in order
    * until a message without `more_body`, and reading stops as soon as the
    * body exceeds `max_body_size`. */
  method ReadRequestBody(msgs: seq<Received>, maxBodySize: int) returns (r: BodyRead)
    ensures r == ReadBody(msgs, maxBodySize)
  {
    var moreBody := true;
    var body: Bytes := "";
    var k := 0;
    while moreBody
      invariant k <= |msgs| + 1
      invariant moreBody ==> k <= |msgs| && ReadBody(msgs, maxBodySize) == ReadBodyFrom(msgs, k, body, maxBodySize)
      invariant !moreBody ==> ReadBody(msgs, maxBodySize) == Read(body, k)
      decreases |msgs| + 1 - k
    {
      var received := ReceiveAt(msgs, k);
      body := body + received.body;
      if |body| > maxBodySize {
        return TooLarge(k + 1);
      }
      moreBody := received.moreBody;
      k := k + 1;
    }
    return Read(body, k);
  }

  /** What the body loop reads: the bodies of the messages it took, every
    * one but the last announcing more; the body stays within the limit, or
    * the last message took it over. */
  lemma {:induction false} ReadBodyFromMeaning(msgs: seq<Received>, k: nat, maxBodySize: int)
    requires k <= |msgs|
    requires |BodiesUpTo(msgs, k)| <= maxBodySize
    ensures var r := ReadBodyFrom(msgs, k, BodiesUpTo(msgs, k), maxBodySize);
      k < r.receives && (forall j :: k <= j < r.receives - 1 ==> ReceiveAt(msgs, j).moreBody)
      && (r.Read? ==> r.body == BodiesUpTo(msgs, r.receives) && |r.body| <= maxBodySize
                      && !ReceiveAt(msgs, r.receives - 1).moreBody)
      && (r.TooLarge? ==> |BodiesUpTo(msgs, r.receives)| > maxBodySize
                          && |BodiesUpTo(msgs, r.receives - 1)| <= maxBodySize)
    decreases |msgs| - k
  {
    var m := ReceiveAt(msgs, k);
    var joined := BodiesUpTo(msgs, k) + m.body;
    assert joined == BodiesUpTo(msgs, k + 1);
    if |joined| <= maxBodySize && m.moreBody {
      ReadBodyFromMeaning(msgs, k + 1, maxBodySize);
    }
  }

  lemma ReadBodyMeaning(msgs: seq<Received>, maxBodySize: int)
    requires maxBodySize >= 0
    ensures var r := ReadBody(msgs, maxBodySize);
      0 < r.receives && (forall j :: 0 <= j < r.receives - 1 ==> ReceiveAt(msgs, j).moreBody)
      && (r.Read? ==> r.body == BodiesUpTo(msgs, r.receives) && |r.body| <= maxBodySize
                      && !ReceiveAt(msgs, r.receives - 1).moreBody)
      && (r.TooLarge? ==> |BodiesUpTo(msgs, r.receives)| > maxBodySize)
  {
    ReadBodyFromMeaning(msgs, 0, maxBodySize);
  }

  /** A body sent whole in one message is read as it is. */
  lemma ReadBodyOneMessage(body: Bytes, rest: seq<Received>, maxBodySize: int)
    requires |body| <= maxBodySize
    ensures ReadBody([Received(body, false)] + rest, maxBodySize) == Read(body, 1)
  {
    assert "" + body == body;
  }

  // ---------------------------------------------------------------------
  // Responses

  /** A file the server attaches, as the chunks its reader yields. */
  datatype Attachment = Attachment(filename: string, mimetype: Option<string>, chunks: seq<Bytes>)

  /** The interaction server's response. */
  datatype Response = Response(statusCode: int, headers: seq<(string, string)>, payload: Option<Bytes>,
                               files: seq<Attachment>, contentType: Option<string>, charset: Option<string>)

  /** What `on_interaction` does: raise, or answer. */
  datatype ServerResult = Raised | Responded(response: Response)

  /** An ASGI `http.response.start` or `http.response.body` message. */
  datatype Message = Start(status: int, headers: seq<(Bytes, Bytes)>) | Body(body: Bytes, moreBody: bool)

  /** `_error_response`: a plain-text answer in two messages. */
  function ErrorResponse(body: Bytes, status: int): (ms: seq<Message>)
    ensures WellFramed(ms) && ms[0].status == status
  {
    assert [Start(status, [(CONTENT_TYPE_KEY, TEXT_CONTENT_TYPE)]), Body(body, false)][1..1] == [];
    [Start(status, [(CONTENT_TYPE_KEY, TEXT_CONTENT_TYPE)]), Body(body, false)]
  }

  /** `_content_type`: the response's content type, with its charset as a
    * parameter when it has one; `None` without a content type. */
  function ContentTypeOf(r: Response): (ct: Option<Bytes>)
    ensures ct.Some? <==> Truthy(r.contentType)
  {
    if Truthy(r.contentType) then
      if Truthy(r.charset) then Some(r.contentType.value + "; charset=" + r.charset.value)
      else Some(r.contentType.value)
    else None
  }

  /** The header `_content_type` writes carries the response's content type
    * as its media type, so a JSON response passes the adapter's own
    * Content-Type check. */
  lemma ContentTypeOfMediaType(r: Response)
    requires Truthy(r.contentType) && ';' !in r.contentType.value
    ensures MediaType(ContentTypeOf(r).value) == r.contentType.value
    ensures Strings.LowerAll(r.contentType.value) == RAW_JSON_CONTENT_TYPE ==> JsonContentType(ContentTypeOf(r))
  {
    var t := r.contentType.value;
    if Truthy(r.charset) {
      CharsetMediaType(t, r.charset.value);
    } else {
      MediaTypeOf(t, "");
      assert t + "" == t;
      if Strings.LowerAll(t) == RAW_JSON_CONTENT_TYPE {
        JsonContentTypeAccepts(t, "");
      }
    }
  }

  /** A charset parameter leaves the media type as it was. */
  lemma CharsetMediaType(t: Bytes, charset: Bytes)
    requires ';' !in t
    ensures MediaType(t + "; charset=" + charset) == t
    ensures Strings.LowerAll(t) == RAW_JSON_CONTENT_TYPE ==> JsonContentType(Some(t + "; charset=" + charset))
  {
    var params := " charset=" + charset;
    assert t + "; charset=" + charset == t + ";" + params;
    MediaTypeOf(t, ";" + params);
    if Strings.LowerAll(t) == RAW_JSON_CONTENT_TYPE {
      JsonContentTypeAccepts(t, params);
    }
  }

  /** The response headers: the server's own, in order, then one
    * content-type naming the multipart boundary when there are files, else
    * the response's content type when it has one. */
  function ResponseHeaders(r: Response, boundary: Bytes): seq<(Bytes, Bytes)>
  {
    r.headers
    + if |r.files| != 0 then [(CONTENT_TYPE_KEY, MULTIPART_CONTENT_TYPE + boundary)]
      else if ContentTypeOf(r).Some? then [(CONTENT_TYPE_KEY, ContentTypeOf(r).value)]
      else []
  }

  const PAYLOAD_DISPOSITION: string := "\r\nContent-Disposition: form-data; name=\"payload_json\"\r\nContent-Type: "
  const CONTENT_LENGTH_FIELD: string := "\r\nContent-Length: "
  const BLANK_LINE: string := "\r\n\r\n"

  /** The `payload_json` part: its headers, with the payload's length as
    * its Content-Length, then the payload. */
  function PayloadBytes(r: Response, boundary: Bytes, payload: Bytes): Bytes
  {
    var contentType := if ContentTypeOf(r).Some? then ContentTypeOf(r).value else JSON_CONTENT_TYPE;
    Strings.Concat(["--", boundary, PAYLOAD_DISPOSITION, contentType, CONTENT_LENGTH_FIELD, Strings.Decimal(|payload|),
                    BLANK_LINE, payload])
  }

  lemma ConcatTail(a: string, b: string, c: string, d: string, e: string, f: string, g: string, h: string)
    ensures Strings.Concat([a, b, c, d, e, f, g, h]) == Strings.Concat([a, b, c, d]) + e + f + g + h
  {
    Strings.ConcatAppend([a, b, c, d], [e, f, g, h]);
    assert [a, b, c, d] + [e, f, g, h] == [a, b, c, d, e, f, g, h];
    assert Strings.Concat([h]) == h;
    assert Strings.Concat([g, h]) == g + h by { assert [g, h][1..] == [h]; }
    assert Strings.Concat([f, g, h]) == f + g + h by { assert [f, g, h][1..] == [g, h]; }
    assert [e, f, g, h][1..] == [f, g, h];
  }

  /** The `payload_json` part's boundary line and headers up to its
    * Content-Type value. */
  function PayloadHead(r: Response, boundary: Bytes): Bytes
  {
    var contentType := if ContentTypeOf(r).Some? then ContentTypeOf(r).value else JSON_CONTENT_TYPE;
    Strings.Concat(["--", boundary, PAYLOAD_DISPOSITION, contentType])
  }

  /** The `payload_json` part ends with its Content-Length header, whose
    * value reads back as the payload's length, a blank line, and the
    * payload itself. */
  lemma PayloadContentLength(r: Response, boundary: Bytes, payload: Bytes)
    ensures PayloadBytes(r, boundary, payload)
            == PayloadHead(r, boundary) + CONTENT_LENGTH_FIELD + Strings.Decimal(|payload|) + BLANK_LINE + payload
    ensures Strings.DecimalValue(Strings.Decimal(|payload|)) == |payload|
  {
    var contentType := if ContentTypeOf(r).Some? then ContentTypeOf(r).value else JSON_CONTENT_TYPE;
    ConcatTail("--", boundary, PAYLOAD_DISPOSITION, contentType, CONTENT_LENGTH_FIELD, Strings.Decimal(|payload|),
               BLANK_LINE, payload);
    Strings.DecimalRoundTrip(|payload|);
  }

  /** The `payload_json` part is sent only when there is a payload. */
  function PayloadPart(r: Response, boundary: Bytes): (ms: seq<Message>)
    ensures |ms| == (if Truthy(r.payload) then 1 else 0)
  {
    if Truthy(r.payload) then [Body(PayloadBytes(r, boundary, r.payload.value), true)] else []
  }

  /** Every message is a body message announcing more. */
  predicate AllMore(ms: seq<Message>)
  {
    forall i :: 0 <= i < |ms| ==> ms[i].Body? && ms[i].moreBody
  }

  lemma AllMoreConcat(a: seq<Message>, b: seq<Message>)
    requires AllMore(a) && AllMore(b)
    ensures AllMore(a + b)
  {
    forall i | 0 <= i < |a + b| ensures (a + b)[i].Body? && (a + b)[i].moreBody {
      if i < |a| {
        assert (a + b)[i] == a[i];
      } else {
        assert (a + b)[i] == b[i - |a|];
      }
    }
  }

  /** The chunks a file's reader yields after its first. */
  function LaterChunks(f: Attachment): seq<Bytes>
  {
    if |f.chunks| == 0 then [] else f.chunks[1..]
  }

  /** Each chunk as a body message announcing more. */
  function ChunkMessages(chunks: seq<Bytes>): (ms: seq<Message>)
    ensures |ms| == |chunks| && forall j :: 0 <= j < |chunks| ==> ms[j] == Body(chunks[j], true)
  {
    seq(|chunks|, j requires 0 <= j < |chunks| => Body(chunks[j], true))
  }

  /** The part header of file `index` followed by the file's first chunk
    * ("" when it has none); `quote` stands for `urllib.parse.quote` with no
    * safe characters. */
  function FileHeadBytes(f: Attachment, index: nat, boundary: Bytes, quote: string -> string): Bytes
  {
    var first := if |f.chunks| != 0 then f.chunks[0] else "";
    var mimetype := if f.mimetype.Some? && |f.mimetype.value| != 0 then f.mimetype.value else OCTET_STREAM_CONTENT_TYPE;
    Strings.Concat(["\r\n--", boundary, "\r\nContent-Disposition: form-data; name=\"files[", Strings.Decimal(index),
                    "]\";filename=\"", quote(f.filename), "\"\r\nContent-Type: ", mimetype, "\r\n\r\n", first])
  }

  function FileHead(f: Attachment, index: nat, boundary: Bytes, quote: string -> string): Message
  {
    Body(FileHeadBytes(f, index, boundary, quote), true)
  }

  /** The parts of the files, in order, file `i` named `files[i]`. */
  function FileParts(files: seq<Attachment>, n: nat, boundary: Bytes, quote: string -> string): seq<Message>
    requires n <= |files|
  {
    if n == 0 then []
    else
      FileParts(files, n - 1, boundary, quote) + [FileHead(files[n - 1], n - 1, boundary, quote)]
      + ChunkMessages(LaterChunks(files[n - 1]))
  }

  /** One more file adds its head and its later chunks. */
  lemma FilePartsSnoc(before: seq<Message>, files: seq<Attachment>, n: nat, boundary: Bytes, quote: string -> string)
    requires n < |files|
    ensures before + FileParts(files, n + 1, boundary, quote)
            == before + FileParts(files, n, boundary, quote) + [FileHead(files[n], n, boundary, quote)]
               + ChunkMessages(LaterChunks(files[n]))
  {
  }

  /** The close delimiter, the last message. */
  function CloseDelimiter(boundary: Bytes): Message
  {
    Body("\r\n--" + boundary + "--", false)
  }

  /** The multipart body `_send_multipart` sends. */
  function Multipart(r: Response, boundary: Bytes, quote: string -> string): (ms: seq<Message>)
    ensures |ms| >= 1 && ms[|ms| - 1] == CloseDelimiter(boundary)
  {
    PayloadPart(r, boundary) + FileParts(r.files, |r.files|, boundary, quote) + [CloseDelimiter(boundary)]
  }

  /** `_send_multipart`. */
  method SendMultipart(r: Response, boundary: Bytes, quote: string -> string) returns (sent: seq<Message>)
    ensures sent == Multipart(r, boundary, quote)
  {
    sent := PayloadPart(r, boundary);
    sent := SendFiles(sent, r.files, boundary, quote);
    sent := sent + [CloseDelimiter(boundary)];
  }

  /** The loop over the attachments: each file's head with its first chunk,
    * then its later chunks. */
  method SendFiles(before: seq<Message>, files: seq<Attachment>, boundary: Bytes, quote: string -> string)
    returns (sent: seq<Message>)
    ensures sent == before + FileParts(files, |files|, boundary, quote)
  {
    sent := before;
    var index := 0;
    while index < |files|
      invariant index <= |files|
      invariant sent == before + FileParts(files, index, boundary, quote)
    {
      sent := SendFile(sent, files[index], index, boundary, quote);
      FilePartsSnoc(before, files, index, boundary, quote);
      index := index + 1;
    }
  }

  /** One attachment: its head with its first chunk, then the rest. */
  method SendFile(before: seq<Message>, f: Attachment, index: nat, boundary: Bytes, quote: string -> string)
    returns (sent: seq<Message>)
    ensures sent == before + [FileHead(f, index, boundary, quote)] + ChunkMessages(LaterChunks(f))
  {
    sent := before + [FileHead(f, index, boundary, quote)];
    sent := SendChunks(sent, LaterChunks(f));
  }

  /** The `async for` over a file's later chunks, each sent as it comes. */
  method SendChunks(before: seq<Message>, chunks: seq<Bytes>) returns (sent: seq<Message>)
    ensures sent == before + ChunkMessages(chunks)
  {
    sent := before;
    var j := 0;
    while j < |chunks|
      invariant j <= |chunks|
      invariant sent == before + ChunkMessages(chunks[..j])
    {
      assert ChunkMessages(chunks[..j + 1]) == ChunkMessages(chunks[..j]) + [Body(chunks[j], true)];
      sent := sent + [Body(chunks[j], true)];
      j := j + 1;
    }
    assert chunks[..j] == chunks;
  }

  /** Every message of a multipart body but the last announces more; the
    * last is the close delimiter of the same boundary. */
  lemma MultipartFraming(r: Response, boundary: Bytes, quote: string -> string)
    ensures var ms := Multipart(r, boundary, quote);
      |ms| >= 1 && ms[|ms| - 1] == Body("\r\n--" + boundary + "--", false) && AllMore(ms[..|ms| - 1])
  {
    FilePartsMoreBody(r.files, |r.files|, boundary, quote);
    assert AllMore(PayloadPart(r, boundary));
    var front := PayloadPart(r, boundary) + FileParts(r.files, |r.files|, boundary, quote);
    AllMoreConcat(PayloadPart(r, boundary), FileParts(r.files, |r.files|, boundary, quote));
    var ms := front + [CloseDelimiter(boundary)];
    assert ms[..|ms| - 1] == front;
  }

  lemma {:induction false} FilePartsMoreBody(files: seq<Attachment>, n: nat, boundary: Bytes, quote: string -> string)
    requires n <= |files|
    ensures AllMore(FileParts(files, n, boundary, quote))
  {
    if n != 0 {
      var i := n - 1;
      FilePartsMoreBody(files, i, boundary, quote);
      assert AllMore(ChunkMessages(LaterChunks(files[i])));
      AllMoreConcat(FileParts(files, i, boundary, quote), [FileHead(files[i], i, boundary, quote)]);
      AllMoreConcat(FileParts(files, i, boundary, quote) + [FileHead(files[i], i, boundary, quote)],
                    ChunkMessages(LaterChunks(files[i])));
    }
  }

  /** The number of messages a file takes: one per chunk, and one for a file
    * with no chunk. */
  function MessagesOf(f: Attachment): nat
  {
    if |f.chunks| == 0 then 1 else |f.chunks|
  }

  function MessageCount(files: seq<Attachment>, n: nat): nat
    requires n <= |files|
  {
    if n == 0 then 0 else MessageCount(files, n - 1) + MessagesOf(files[n - 1])
  }

  /** The file parts take one message per chunk (one for an empty file). */
  lemma {:induction false} FilePartsCount(files: seq<Attachment>, n: nat, boundary: Bytes, quote: string -> string)
    requires n <= |files|
    ensures |FileParts(files, n, boundary, quote)| == MessageCount(files, n)
  {
    if n != 0 {
      FilePartsCount(files, n - 1, boundary, quote);
    }
  }

  // ---------------------------------------------------------------------
  // Handling one HTTP request

  /** The parts of an ASGI HTTP scope the adapter reads. */
  datatype HttpScope = HttpScope(httpMethod: string, path: string, headers: seq<(Bytes, Bytes)>)

  /** What handling a request does: the messages sent, how many messages
    * were received, and whether the server's exception is raised again. */
  datatype Outcome = Outcome(sent: seq<Message>, receives: nat, reraised: bool)

  /** The answer to a request the server handled: the start message, then
    * the multipart body when there are files, else the payload ("" without
    * one) in a single message. */
  function Reply(r: Response, boundary: Bytes, quote: string -> string): (ms: seq<Message>)
    ensures |ms| >= 2 && ms[0].Start? && ms[0].status == r.statusCode
    ensures ms[|ms| - 1].Body? && !ms[|ms| - 1].moreBody
  {
    [Start(r.statusCode, ResponseHeaders(r, boundary))]
    + if |r.files| != 0 then Multipart(r, boundary, quote)
      else [Body(if Truthy(r.payload) then r.payload.value else "", false)]
  }

  /** `_process_request`: what is sent for a request whose later messages
    * are `msgs`. `server` stands for the interaction server's
    * `on_interaction`, called with the body, the decoded signature and the
    * timestamp; `boundary` for the fresh UUID's hexadecimal digits. */
  function HandleRequest(scope: HttpScope, msgs: seq<Received>, maxBodySize: int,
                         server: (Bytes, Bytes, Bytes) -> ServerResult, boundary: Bytes,
                         quote: string -> string): (o: Outcome)
    ensures scope.httpMethod != "POST" || scope.path != "/" ==> o == Outcome(ErrorResponse("Not found", 404), 0, false)
    ensures o.reraised ==> o.sent == ErrorResponse("Internal Server Error", 500) && o.receives >= 1
    ensures |o.sent| >= 2 && o.sent[0].Start?
  {
    if scope.httpMethod != "POST" || scope.path != "/" then
      Outcome(ErrorResponse("Not found", 404), 0, false)
    else
      match Scan(scope.headers, NOTHING_FOUND)
      case None => Outcome(ErrorResponse("Invalid ED25519 signature header found", BAD_REQUEST_STATUS), 0, false)
      case Some(found) =>
        if !JsonContentType(found.contentType) then
          Outcome(ErrorResponse("Content-Type must be application/json", BAD_REQUEST_STATUS), 0, false)
        else if !Truthy(found.signature) || !Truthy(found.timestamp) then
          Outcome(ErrorResponse("Missing required request signature header(s)", BAD_REQUEST_STATUS), 0, false)
        else
          Answer(found.signature.value, found.timestamp.value, msgs, maxBodySize, server, boundary, quote)
  }

  /** The part of `_process_request` after the headers passed: read the
    * body, then hand it to the server. */
  function Answer(signature: Bytes, timestamp: Bytes, msgs: seq<Received>, maxBodySize: int,
                  server: (Bytes, Bytes, Bytes) -> ServerResult, boundary: Bytes,
                  quote: string -> string): (o: Outcome)
    ensures 1 <= o.receives <= |msgs| + 1
    ensures o.reraised ==> o.sent == ErrorResponse("Internal Server Error", 500)
    ensures |o.sent| >= 2 && o.sent[0].Start?
    ensures ReadBody(msgs, maxBodySize).TooLarge? ==> o.sent == ErrorResponse("Content Too Large", 413) && !o.reraised
  {
    match ReadBody(msgs, maxBodySize)
    case TooLarge(n) => Outcome(ErrorResponse("Content Too Large", 413), n, false)
    case Read(body, n) =>
      if |body| == 0 then Outcome(ErrorResponse("POST request must have a body", BAD_REQUEST_STATUS), n, false)
      else
        match server(body, signature, timestamp)
        case Raised => Outcome(ErrorResponse("Internal Server Error", 500), n, true)
        case Responded(r) => Outcome(Reply(r, boundary, quote), n, false)
  }

  /** The messages follow the ASGI HTTP response protocol: one start
    * message, then body messages of which only the last says there is no
    * more. */
  predicate WellFramed(ms: seq<Message>)
  {
    |ms| >= 2 && ms[0].Start? && AllMore(ms[1..|ms| - 1])
    && ms[|ms| - 1].Body? && !ms[|ms| - 1].moreBody
  }

  /** Every request is answered by a well-framed response. */
  lemma HandleRequestWellFramed(scope: HttpScope, msgs: seq<Received>, maxBodySize: int,
                                server: (Bytes, Bytes, Bytes) -> ServerResult, boundary: Bytes,
                                quote: string -> string)
    ensures WellFramed(HandleRequest(scope, msgs, maxBodySize, server, boundary, quote).sent)
  {
    var found := Scan(scope.headers, NOTHING_FOUND);
    if scope.httpMethod == "POST" && scope.path == "/" && found.Some? && JsonContentType(found.value.contentType)
       && Truthy(found.value.signature) && Truthy(found.value.timestamp)
    {
      AnswerWellFramed(found.value.signature.value, found.value.timestamp.value, msgs, maxBodySize, server,
                       boundary, quote);
    }
  }

  lemma AnswerWellFramed(signature: Bytes, timestamp: Bytes, msgs: seq<Received>, maxBodySize: int,
                         server: (Bytes, Bytes, Bytes) -> ServerResult, boundary: Bytes,
                         quote: string -> string)
    ensures WellFramed(Answer(signature, timestamp, msgs, maxBodySize, server, boundary, quote).sent)
  {
    var read := ReadBody(msgs, maxBodySize);
    if read.Read? && |read.body| != 0 && server(read.body, signature, timestamp).Responded? {
      ReplyWellFramed(server(read.body, signature, timestamp).response, boundary, quote);
    }
  }

  lemma ReplyWellFramed(r: Response, boundary: Bytes, quote: string -> string)
    ensures WellFramed(Reply(r, boundary, quote))
  {
    var ms := Reply(r, boundary, quote);
    if |r.files| != 0 {
      MultipartFraming(r, boundary, quote);
      var body := Multipart(r, boundary, quote);
      assert ms == [ms[0]] + body;
      assert ms[1..|ms| - 1] == body[..|body| - 1];
    } else {
      assert ms[1..|ms| - 1] == [];
    }
  }

  /** A reply with files announces the boundary in its content-type
    * header and closes the body with that same boundary. */
  lemma ReplyBoundary(r: Response, boundary: Bytes, quote: string -> string)
    requires |r.files| != 0
    ensures var ms := Reply(r, boundary, quote);
      (CONTENT_TYPE_KEY, MULTIPART_CONTENT_TYPE + boundary) in ms[0].headers
      && ms[|ms| - 1] == Body("\r\n--" + boundary + "--", false)
  {
    var ms := Reply(r, boundary, quote);
    MultipartFraming(r, boundary, quote);
    var hs := ResponseHeaders(r, boundary);
    assert hs[|hs| - 1] == (CONTENT_TYPE_KEY, MULTIPART_CONTENT_TYPE + boundary);
  }

  /** A request refused on its method, path or headers reads no message,
    * and every request that passes those checks reads at least one. */
  lemma HeadersCheckedBeforeBody(scope: HttpScope, msgs: seq<Received>, maxBodySize: int,
                                 server: (Bytes, Bytes, Bytes) -> ServerResult, boundary: Bytes,
                                 quote: string -> string)
    requires maxBodySize >= 0
    ensures var o := HandleRequest(scope, msgs, maxBodySize, server, boundary, quote);
      o.receives == 0 <==>
        scope.httpMethod != "POST" || scope.path != "/" || Scan(scope.headers, NOTHING_FOUND).None?
        || !JsonContentType(Scan(scope.headers, NOTHING_FOUND).value.contentType)
        || !Truthy(Scan(scope.headers, NOTHING_FOUND).value.signature)
        || !Truthy(Scan(scope.headers, NOTHING_FOUND).value.timestamp)
  {
    ReadBodyMeaning(msgs, maxBodySize);
  }

  /** A body over `max_body_size` is refused with 413 and never reaches the
    * server. */
  lemma TooLargeRefused(scope: HttpScope, msgs: seq<Received>, maxBodySize: int,
                        server: (Bytes, Bytes, Bytes) -> ServerResult, boundary: Bytes, quote: string -> string)
    requires scope.httpMethod == "POST" && scope.path == "/"
    requires Scan(scope.headers, NOTHING_FOUND).Some?
    requires var f := Scan(scope.headers, NOTHING_FOUND).value;
      JsonContentType(f.contentType) && Truthy(f.signature) && Truthy(f.timestamp)
    requires ReadBody(msgs, maxBodySize).TooLarge?
    ensures HandleRequest(scope, msgs, maxBodySize, server, boundary, quote)
            == Outcome(ErrorResponse("Content Too Large", 413), ReadBody(msgs, maxBodySize).receives, false)
  {
  }

  /** A request that passes every check is answered with exactly what the
    * server returned for the joined body. */
  lemma ServerAnswers(scope: HttpScope, msgs: seq<Received>, maxBodySize: int,
                      server: (Bytes, Bytes, Bytes) -> ServerResult, boundary: Bytes, quote: string -> string)
    requires maxBodySize >= 0
    requires scope.httpMethod == "POST" && scope.path == "/"
    requires Scan(scope.headers, NOTHING_FOUND).Some?
    requires var f := Scan(scope.headers, NOTHING_FOUND).value;
      JsonContentType(f.contentType) && Truthy(f.signature) && Truthy(f.timestamp)
    requires ReadBody(msgs, maxBodySize).Read? && |ReadBody(msgs, maxBodySize).body| != 0
    ensures var f := Scan(scope.headers, NOTHING_FOUND).value;
      var n := ReadBody(msgs, maxBodySize).receives;
      var answer := server(BodiesUpTo(msgs, n), f.signature.value, f.timestamp.value);
      var o := HandleRequest(scope, msgs, maxBodySize, server, boundary, quote);
      o.receives == n
      && (answer.Raised? ==> o == Outcome(ErrorResponse("Internal Server Error", 500), n, true))
      && (answer.Responded? ==> o.sent == Reply(answer.response, boundary, quote) && !o.reraised)
  {
    ReadBodyMeaning(msgs, maxBodySize);
  }

  // ---------------------------------------------------------------------
  // Callback lists

  /** `list.remove`: the first occurrence taken out. */
  function RemoveFirst<T(==)>(s: seq<T>, x: T): (r: seq<T>)
    ensures x !in s ==> r == s
    ensures x in s ==> |r| == |s| - 1
  {
    if |s| == 0 then []
    else if s[0] == x then s[1..]
    else [s[0]] + RemoveFirst(s[1..], x)
  }

  /** Removing takes away one occurrence and keeps every other element. */
  lemma {:induction false} RemoveFirstMultiset<T>(s: seq<T>, x: T)
    requires x in s
    ensures multiset(RemoveFirst(s, x)) == multiset(s) - multiset{x}
  {
    if s[0] != x {
      RemoveFirstMultiset(s[1..], x);
      assert s == [s[0]] + s[1..];
    } else {
      assert s == [x] + s[1..];
    }
  }

  /** Removing what was just appended, and nowhere else, undoes the append. */
  lemma {:induction false} RemoveAppended<T>(s: seq<T>, x: T)
    requires x !in s
    ensures RemoveFirst(s + [x], x) == s
  {
    if |s| != 0 {
      assert (s + [x])[1..] == s[1..] + [x];
      RemoveAppended(s[1..], x);
    }
  }

  const NOT_IN_LIST: string := "list.remove(x): x not in list"

  /** A lifespan callback: the bot's own start and close, a callback added
    * to the adapter directly, or the wrapper the bot registers for one of
    * its callbacks. */
  datatype Hook = StartBot | CloseBot | Callback(id: nat) | BotCallback(id: nat)

  /** The ASGI lifespan reply: its type and, for a failure, the traceback. */
  datatype LifespanReply = LifespanReply(kind: string, message: Option<string>)

  /** The reply to a lifespan event and the callbacks it ran. */
  datatype Lifespan = Lifespan(ran: seq<Hook>, reply: LifespanReply)

  /** The reply once every callback of the phase has run: complete, or
    * failed with the traceback of the exception one of them raised. */
  function LifespanOutcome(phase: string, callbacks: seq<Hook>, failure: Option<string>): (l: Lifespan)
    ensures l.ran == callbacks
    ensures failure.None? <==> l.reply.message.None?
  {
    if failure.None? then Lifespan(callbacks, LifespanReply("lifespan." + phase + ".complete", None))
    else Lifespan(callbacks, LifespanReply("lifespan." + phase + ".failed", failure))
  }

  /** What one call of the adapter did. */
  datatype Handled = HandledRequest(outcome: Outcome) | HandledLifespan(lifespan: Lifespan)

  /** `AsgiAdapter`. */
  class AsgiAdapter {
    const maxBodySize: int
    var onStartup: seq<Hook>
    var onShutdown: seq<Hook>

    constructor (maxBodySize: int)
      ensures this.maxBodySize == maxBodySize && onStartup == [] && onShutdown == []
    {
      this.maxBodySize := maxBodySize;
      onStartup := [];
      onShutdown := [];
    }

    /** `add_startup_callback`: appended even when already there. */
    method AddStartupCallback(callback: Hook)
      modifies this
      ensures onStartup == old(onStartup) + [callback] && onShutdown == old(onShutdown)
    {
      onStartup := onStartup + [callback];
    }

    /** `remove_startup_callback`: its first occurrence, or `ValueError`. */
    method RemoveStartupCallback(callback: Hook) returns (r: Result<Unit>)
      modifies this
      ensures r.Success? <==> callback in old(onStartup)
      ensures r.Failure? ==> r.error == ValueError(NOT_IN_LIST)
      ensures onStartup == RemoveFirst(old(onStartup), callback) && onShutdown == old(onShutdown)
    {
      if callback !in onStartup {
        return Failure(ValueError(NOT_IN_LIST));
      }
      onStartup := RemoveFirst(onStartup, callback);
      return Success(Unit);
    }

    /** `add_shutdown_callback`: appended even when already there. */
    method AddShutdownCallback(callback: Hook)
      modifies this
      ensures onShutdown == old(onShutdown) + [callback] && onStartup == old(onStartup)
    {
      onShutdown := onShutdown + [callback];
    }

    /** `remove_shutdown_callback`: its first occurrence, or `ValueError`. */
    method RemoveShutdownCallback(callback: Hook) returns (r: Result<Unit>)
      modifies this
      ensures r.Success? <==> callback in old(onShutdown)
      ensures r.Failure? ==> r.error == ValueError(NOT_IN_LIST)
      ensures onShutdown == RemoveFirst(old(onShutdown), callback) && onStartup == old(onStartup)
    {
      if callback !in onShutdown {
        return Failure(ValueError(NOT_IN_LIST));
      }
      onShutdown := RemoveFirst(onShutdown, callback);
      return Success(Unit);
    }

    /** `_process_lifespan_event`: startup runs the startup callbacks,
    * shutdown the shutdown callbacks, and any other event is a
    * `RuntimeError`. `failure` is the traceback of an exception a callback
    * raised, `None` when they all finished. */
    method ProcessLifespanEvent(messageType: string, failure: Option<string>) returns (r: Result<Lifespan>)
      ensures messageType == "lifespan.startup" ==> r == Success(LifespanOutcome("startup", onStartup, failure))
      ensures messageType == "lifespan.shutdown" ==> r == Success(LifespanOutcome("shutdown", onShutdown, failure))
      ensures messageType != "lifespan.startup" && messageType != "lifespan.shutdown" ==>
        r == Failure(RuntimeError("Unknown lifespan event " + messageType))
    {
      if messageType == "lifespan.startup" {
        return Success(LifespanOutcome("startup", onStartup, failure));
      } else if messageType == "lifespan.shutdown" {
        return Success(LifespanOutcome("shutdown", onShutdown, failure));
      }
      return Failure(RuntimeError("Unknown lifespan event " + messageType));
    }

    /** `__call__`: an "http" scope is a request, a "lifespan" scope a
      * lifespan event (`lifespanType` is the type of the message received
      * for it), and any other scope is refused. */
    method Call(scopeType: string, scope: HttpScope, msgs: seq<Received>,
                server: (Bytes, Bytes, Bytes) -> ServerResult, boundary: Bytes, quote: string -> string,
                lifespanType: string, failure: Option<string>) returns (r: Result<Handled>)
      ensures scopeType == "http" ==>
        r == Success(HandledRequest(HandleRequest(scope, msgs, maxBodySize, server, boundary, quote)))
      ensures scopeType == "lifespan" && lifespanType == "lifespan.startup" ==>
        r == Success(HandledLifespan(LifespanOutcome("startup", onStartup, failure)))
      ensures scopeType == "lifespan" && lifespanType == "lifespan.shutdown" ==>
        r == Success(HandledLifespan(LifespanOutcome("shutdown", onShutdown, failure)))
      ensures scopeType == "lifespan" && lifespanType != "lifespan.startup" && lifespanType != "lifespan.shutdown" ==>
        r == Failure(RuntimeError("Unknown lifespan event " + lifespanType))
      ensures scopeType != "http" && scopeType != "lifespan" ==>
        r == Failure(NotImplementedError("Websocket operations are not supported"))
    {
      if scopeType == "http" {
        var o := ProcessRequest(scope, msgs, server, boundary, quote);
        return Success(HandledRequest(o));
      } else if scopeType == "lifespan" {
        var l := ProcessLifespanEvent(lifespanType, failure);
        if l.Failure? {
          return Failure(l.error);
        }
        return Success(HandledLifespan(l.value));
      }
      return Failure(NotImplementedError("Websocket operations are not supported"));
    }

    /** `_process_request`. */
    method ProcessRequest(scope: HttpScope, msgs: seq<Received>, server: (Bytes, Bytes, Bytes) -> ServerResult,
                          boundary: Bytes, quote: string -> string) returns (o: Outcome)
      ensures o == HandleRequest(scope, msgs, maxBodySize, server, boundary, quote)
    {
      if scope.httpMethod != "POST" || scope.path != "/" {
        return Outcome(ErrorResponse("Not found", 404), 0, false);
      }
      var found := FindHeaders(scope.headers);
      if found.None? {
        return Outcome(ErrorResponse("Invalid ED25519 signature header found", BAD_REQUEST_STATUS), 0, false);
      }
      var f := found.value;
      if !JsonContentType(f.contentType) {
        return Outcome(ErrorResponse("Content-Type must be application/json", BAD_REQUEST_STATUS), 0, false);
      }
      if !Truthy(f.signature) || !Truthy(f.timestamp) {
        return Outcome(ErrorResponse("Missing required request signature header(s)", BAD_REQUEST_STATUS), 0, false);
      }
      var read := ReadRequestBody(msgs, maxBodySize);
      if read.TooLarge? {
        return Outcome(ErrorResponse("Content Too Large", 413), read.receives, false);
      }
      if |read.body| == 0 {
        return Outcome(ErrorResponse("POST request must have a body", BAD_REQUEST_STATUS), read.receives, false);
      }
      var answer := server(read.body, f.signature.value, f.timestamp.value);
      if answer.Raised? {
        return Outcome(ErrorResponse("Internal Server Error", 500), read.receives, true);
      }
      var r := answer.response;
      var sent := [Start(r.statusCode, ResponseHeaders(r, boundary))];
      if |r.files| != 0 {
        var body := SendMultipart(r, boundary, quote);
        sent := sent + body;
      } else {
        sent := sent + [Body(if Truthy(r.payload) then r.payload.value else "", false)];
      }
      return Outcome(sent, read.receives, false);
    }
  }

  // ---------------------------------------------------------------------
  // The bot

  const MANAGED_MESSAGE: string := "The client is being managed by ASGI lifespan events"
  const RUNNING_MESSAGE: string := "The client is already running"
  const NOT_RUNNING_MESSAGE: string := "The client is not running"

  /** The adapter's hooks for the bot's callbacks, in order. */
  function Wrapped(ids: seq<nat>): (hs: seq<Hook>)
    ensures |hs| == |ids| && forall i :: 0 <= i < |ids| ==> hs[i] == BotCallback(ids[i])
  {
    seq(|ids|, i requires 0 <= i < |ids| => BotCallback(ids[i]))
  }

  predicate Distinct(ids: seq<nat>)
  {
    forall i, j :: 0 <= i < j < |ids| ==> ids[i] != ids[j]
  }

  /** Removing from a list whose front does not hold the element leaves
    * the front alone. */
  lemma {:induction false} RemoveAfterPrefix<T>(prefix: seq<T>, s: seq<T>, x: T)
    requires x !in prefix
    ensures RemoveFirst(prefix + s, x) == prefix + RemoveFirst(s, x)
  {
    if |prefix| != 0 {
      assert (prefix + s)[1..] == prefix[1..] + s;
      RemoveAfterPrefix(prefix[1..], s, x);
      assert prefix == [prefix[0]] + prefix[1..];
    } else {
      assert prefix + s == s;
    }
  }

  /** Removing a wrapper from the adapter's list is removing the id from
    * the bot's keys. */
  lemma {:induction false} RemoveWrapped(ids: seq<nat>, id: nat)
    ensures RemoveFirst(Wrapped(ids), BotCallback(id)) == Wrapped(RemoveFirst(ids, id))
  {
    if |ids| != 0 {
      assert Wrapped(ids)[1..] == Wrapped(ids[1..]);
      if ids[0] != id {
        RemoveWrapped(ids[1..], id);
        assert Wrapped([ids[0]] + RemoveFirst(ids[1..], id))
               == [BotCallback(ids[0])] + Wrapped(RemoveFirst(ids[1..], id));
      }
    }
  }

  lemma DistinctTail(ids: seq<nat>)
    requires |ids| != 0 && Distinct(ids)
    ensures Distinct(ids[1..]) && ids[0] !in ids[1..]
  {
    forall i, j | 0 <= i < j < |ids| - 1
      ensures ids[1..][i] != ids[1..][j]
    {
      assert ids[1..][i] == ids[i + 1] && ids[1..][j] == ids[j + 1];
    }
    forall k | 0 <= k < |ids| - 1
      ensures ids[1..][k] != ids[0]
    {
      assert ids[1..][k] == ids[k + 1];
    }
  }

  /** Removing keeps only elements the list had. */
  lemma {:induction false} RemoveFirstFrom<T>(s: seq<T>, x: T, y: T)
    requires y in RemoveFirst(s, x)
    ensures y in s
  {
    if s[0] != x && y != s[0] {
      RemoveFirstFrom(s[1..], x, y);
    }
  }

  lemma DistinctCons(a: nat, rest: seq<nat>)
    requires Distinct(rest) && a !in rest
    ensures Distinct([a] + rest)
  {
    forall i, j | 0 <= i < j < |rest| + 1
      ensures ([a] + rest)[i] != ([a] + rest)[j]
    {
      assert ([a] + rest)[j] == rest[j - 1];
      if i != 0 {
        assert ([a] + rest)[i] == rest[i - 1];
      }
    }
  }

  /** Removing from a distinct list keeps it distinct and leaves the
    * element out. */
  lemma {:induction false} RemoveDistinct(ids: seq<nat>, id: nat)
    requires Distinct(ids)
    ensures Distinct(RemoveFirst(ids, id)) && id !in RemoveFirst(ids, id)
  {
    if |ids| != 0 {
      DistinctTail(ids);
      if ids[0] != id {
        RemoveDistinct(ids[1..], id);
        var rest := RemoveFirst(ids[1..], id);
        if ids[0] in rest {
          RemoveFirstFrom(ids[1..], id, ids[0]);
        }
        DistinctCons(ids[0], rest);
      }
    }
  }

  /** `AsgiBot`: its lifecycle flags, its callback registry, and the adapter
    * that runs the callbacks. */
  class AsgiBot {
    const isAsgiManaged: bool
    const adapter: AsgiAdapter
    var isAlive: bool
    /** Whether `_join_event` holds an event. */
    var joinEvent: bool
    /** The keys of `_on_startup` and `_on_shutdown`, in insertion order. */
    var onStartup: seq<nat>
    var onShutdown: seq<nat>

    /** The bot is alive exactly while it has a join event; its adapter
      * holds the bot's own start and close hooks when managed, then one
      * wrapper per registered callback, in order. */
    ghost predicate Valid()
      reads this, adapter
    {
      isAlive == joinEvent
      && Distinct(onStartup) && Distinct(onShutdown)
      && adapter.onStartup == (if isAsgiManaged then [StartBot] else []) + Wrapped(onStartup)
      && adapter.onShutdown == (if isAsgiManaged then [CloseBot] else []) + Wrapped(onShutdown)
    }

    constructor (asgiManaged: bool, maxBodySize: int)
      ensures Valid() && fresh(adapter)
      ensures isAsgiManaged == asgiManaged && adapter.maxBodySize == maxBodySize
      ensures !isAlive && onStartup == [] && onShutdown == []
    {
      isAsgiManaged := asgiManaged;
      var a := new AsgiAdapter(maxBodySize);
      if asgiManaged {
        a.AddStartupCallback(StartBot);
        a.AddShutdownCallback(CloseBot);
      }
      adapter := a;
      isAlive := false;
      joinEvent := false;
      onStartup := [];
      onShutdown := [];
    }

    /** `_start`, which the startup hook runs. */
    method StartHook()
      requires Valid()
      modifies this
      ensures Valid() && isAlive && onStartup == old(onStartup) && onShutdown == old(onShutdown)
    {
      joinEvent := true;
      isAlive := true;
    }

    /** `_close`, which the shutdown hook runs; its `assert` fails when the
      * bot never started. */
    method CloseHook() returns (r: Result<Unit>)
      requires Valid()
      modifies this
      ensures Valid() && onStartup == old(onStartup) && onShutdown == old(onShutdown)
      ensures r.Failure? <==> !old(joinEvent)
      ensures r.Failure? ==> r.error == AssertionError && isAlive == old(isAlive)
      ensures r.Success? ==> !isAlive
    {
      if !joinEvent {
        return Failure(AssertionError);
      }
      isAlive := false;
      joinEvent := false;
      return Success(Unit);
    }

    /** `start`: refused when managed by lifespan events or already alive. */
    method Start() returns (r: Result<Unit>)
      requires Valid()
      modifies this
      ensures Valid() && onStartup == old(onStartup) && onShutdown == old(onShutdown)
      ensures isAsgiManaged ==> r == Failure(RuntimeError(MANAGED_MESSAGE)) && isAlive == old(isAlive)
      ensures !isAsgiManaged && old(isAlive) ==> r == Failure(RuntimeError(RUNNING_MESSAGE)) && isAlive
      ensures !isAsgiManaged && !old(isAlive) ==> r.Success? && isAlive
    {
      if isAsgiManaged {
        return Failure(RuntimeError(MANAGED_MESSAGE));
      }
      if isAlive {
        return Failure(RuntimeError(RUNNING_MESSAGE));
      }
      StartHook();
      return Success(Unit);
    }

    /** `run`: the same checks, then `start`; waiting on `join` until the
      * bot is closed is not modelled. */
    method Run() returns (r: Result<Unit>)
      requires Valid()
      modifies this
      ensures Valid() && onStartup == old(onStartup) && onShutdown == old(onShutdown)
      ensures isAsgiManaged ==> r == Failure(RuntimeError(MANAGED_MESSAGE)) && isAlive == old(isAlive)
      ensures !isAsgiManaged && old(isAlive) ==> r == Failure(RuntimeError(RUNNING_MESSAGE)) && isAlive
      ensures !isAsgiManaged && !old(isAlive) ==> r.Success? && isAlive
    {
      if isAsgiManaged {
        return Failure(RuntimeError(MANAGED_MESSAGE));
      }
      if isAlive {
        return Failure(RuntimeError(RUNNING_MESSAGE));
      }
      r := Start();
    }

    /** `close`: refused when managed by lifespan events or not alive. */
    method Close() returns (r: Result<Unit>)
      requires Valid()
      modifies this
      ensures Valid() && onStartup == old(onStartup) && onShutdown == old(onShutdown)
      ensures isAsgiManaged ==> r == Failure(RuntimeError(MANAGED_MESSAGE)) && isAlive == old(isAlive)
      ensures !isAsgiManaged && !old(isAlive) ==> r == Failure(RuntimeError(NOT_RUNNING_MESSAGE)) && !isAlive
      ensures !isAsgiManaged && old(isAlive) ==> r.Success? && !isAlive
    {
      if isAsgiManaged {
        return Failure(RuntimeError(MANAGED_MESSAGE));
      }
      if !isAlive || !joinEvent {
        return Failure(RuntimeError(NOT_RUNNING_MESSAGE));
      }
      r := CloseHook();
    }

    /** `join`: refused when there is no join event; the wait itself is not
      * modelled. */
    method Join() returns (r: Result<Unit>)
      requires Valid()
      ensures r.Failure? <==> !isAlive
      ensures r.Failure? ==> r.error == RuntimeError(NOT_RUNNING_MESSAGE)
    {
      if !joinEvent {
        return Failure(RuntimeError(NOT_RUNNING_MESSAGE));
      }
      return Success(Unit);
    }

    /** `add_startup_callback`: a callback already registered is left as
      * it is; a new one is wrapped and its wrapper added to the adapter. */
    method AddStartupCallback(callback: nat)
      requires Valid()
      modifies this, adapter
      ensures Valid() && isAlive == old(isAlive) && onShutdown == old(onShutdown)
      ensures onStartup == if callback in old(onStartup) then old(onStartup) else old(onStartup) + [callback]
    {
      if callback in onStartup {
        return;
      }
      assert Wrapped(onStartup + [callback]) == Wrapped(onStartup) + [BotCallback(callback)];
      onStartup := onStartup + [callback];
      adapter.AddStartupCallback(BotCallback(callback));
    }

    /** `remove_startup_callback`: silent when the callback is not
      * registered; otherwise it and its wrapper are removed. */
    method RemoveStartupCallback(callback: nat)
      requires Valid()
      modifies this, adapter
      ensures Valid() && isAlive == old(isAlive) && onShutdown == old(onShutdown)
      ensures onStartup == RemoveFirst(old(onStartup), callback) && callback !in onStartup
    {
      if callback !in onStartup {
        return;
      }
      var prefix := if isAsgiManaged then [StartBot] else [];
      RemoveAfterPrefix(prefix, Wrapped(onStartup), BotCallback(callback));
      RemoveWrapped(onStartup, callback);
      RemoveDistinct(onStartup, callback);
      onStartup := RemoveFirst(onStartup, callback);
      var removed := adapter.RemoveStartupCallback(BotCallback(callback));
    }

    /** `add_shutdown_callback`. */
    method AddShutdownCallback(callback: nat)
      requires Valid()
      modifies this, adapter
      ensures Valid() && isAlive == old(isAlive) && onStartup == old(onStartup)
      ensures onShutdown == if callback in old(onShutdown) then old(onShutdown) else old(onShutdown) + [callback]
    {
      if callback in onShutdown {
        return;
      }
      assert Wrapped(onShutdown + [callback]) == Wrapped(onShutdown) + [BotCallback(callback)];
      onShutdown := onShutdown + [callback];
      adapter.AddShutdownCallback(BotCallback(callback));
    }

    /** `remove_shutdown_callback`. */
    method RemoveShutdownCallback(callback: nat)
      requires Valid()
      modifies this, adapter
      ensures Valid() && isAlive == old(isAlive) && onStartup == old(onStartup)
      ensures onShutdown == RemoveFirst(old(onShutdown), callback) && callback !in onShutdown
    {
      if callback !in onShutdown {
        return;
      }
      var prefix := if isAsgiManaged then [CloseBot] else [];
      RemoveAfterPrefix(prefix, Wrapped(onShutdown), BotCallback(callback));
      RemoveWrapped(onShutdown, callback);
      RemoveDistinct(onShutdown, callback);
      onShutdown := RemoveFirst(onShutdown, callback);
      var removed := adapter.RemoveShutdownCallback(BotCallback(callback));
    }
  }
}
