/** The image-edit client (services/geminiService.ts): it checks the API key, splits the
    uploaded data URI into MIME type and payload, composes the instruction, sends one request
    and takes the first inline image of the reply. The generative service itself is a
    parameter: a total function from the request to the reply it produces. */
module GeminiService {
  import opened Wrappers
  import opened JsText

  const MissingKeyMessage := "API Key is missing."
  const NoPartsMessage := "The magic failed to manifest. Please try again."
  const NoImageMessage := "Result extraction failed."
  const FallbackMessage := "An error occurred during creation."

  /** MIME type sent when the input is not a recognised base64 image data URI. */
  const DefaultMimeType := "image/png"
  /** Every returned image is wrapped with this prefix, whatever the input's MIME type. */
  const PngDataUriPrefix := "data:image/png;base64,"

  /** The fixed auto-composition protocol block, exactly as the template literal holds it. */
  const ProtocolBlock :=
    "\n    INTELLIGENT 4:5 AUTO-CROP & COMPOSITION:\n"
    + "    1. MASTERPIECE RATIO: Your primary goal is to produce a visually stunning 4:5 aspect ratio image.\n"
    + "    2. SMART CROPPING: Analyze the main subject and crop the image to a 4:5 frame that highlights the essence of the work.\n"
    + "    3. SEAMLESS BACKGROUND: If the original content does not fill the 4:5 area, intelligently extend the background (outpaint) using matching textures, colors, and lighting.\n"
    + "    4. NO FORCED MARGINS: Do not add artificial white borders unless they are part of a professional gallery aesthetic. Focus on a full-bleed 4:5 composition.\n"
    + "    5. SUBJECT PRESERVATION: Ensure the main subject is perfectly positioned and not distorted.\n"
    + "  "
  /** Separates the protocol block from the user's request. */
  const RequestMarker := "\n\nUSER MAGIC REQUEST: "
  /** Sent instead of a blank instruction ("fit the image to the most beautiful 4:5 composition"). */
  const DefaultInstruction := "이미지를 가장 아름다운 4:5 구도로 알아서 맞춰줘."

  // ---------------------------------------------------------------------------
  // Data-URI prefix: the anchored pattern  data:(image/[a-zA-Z]+);base64,
  // ---------------------------------------------------------------------------

  const DataImageHead := "data:image/"
  const Base64Marker := ";base64,"

  predicate IsAsciiLetter(c: char) {
    'a' <= c <= 'z' || 'A' <= c <= 'Z'
  }

  predicate AllLetters(s: string) {
    forall i :: 0 <= i < |s| ==> IsAsciiLetter(s[i])
  }

  /** The prefix the pattern matches for the MIME subtype `subtype`. */
  function PrefixFor(subtype: string): string {
    DataImageHead + subtype + Base64Marker
  }

  /** Length of the longest run of ASCII letters at the start of `s` (the greedy `[a-zA-Z]+`). */
  function LetterRun(s: string): (n: nat)
    ensures n <= |s| && AllLetters(s[..n])
    ensures n < |s| ==> !IsAsciiLetter(s[n])
  {
    if s != [] && IsAsciiLetter(s[0]) then 1 + LetterRun(s[1..]) else 0
  }

  /** The subtype letters the pattern captures, or None when `s` does not start with the pattern.
      A captured subtype is a non-empty run of letters and `s` starts with its prefix. */
  function MatchedSubtype(s: string): (m: Option<string>)
    ensures m.Some? ==> m.value != [] && AllLetters(m.value) && PrefixFor(m.value) <= s
  {
    if |s| < |DataImageHead| || s[..|DataImageHead|] != DataImageHead then None
    else
      var rest := s[|DataImageHead|..];
      var n := LetterRun(rest);
      if n > 0 && Base64Marker <= rest[n..] then
        assert s == DataImageHead + rest;
        assert rest == rest[..n] + rest[n..];
        Some(rest[..n])
      else None
  }

  /** The MIME type sent with the image: `image/` and the captured subtype, or `image/png`
      when the input does not start with the pattern. */
  function MimeTypeOf(image: string): string {
    match MatchedSubtype(image)
    case Some(t) => "image/" + t
    case None => DefaultMimeType
  }

  /** The input with the matched prefix replaced by nothing. */
  function PayloadOf(image: string): string {
    match MatchedSubtype(image)
    case Some(t) => image[|PrefixFor(t)|..]
    case None => image
  }

  /** The ";" that ends the subtype stops the letter run exactly at the subtype's end. */
  lemma {:induction false} LetterRunStopsAt(t: string, u: string)
    requires AllLetters(t)
    requires u != [] && !IsAsciiLetter(u[0])
    ensures LetterRun(t + u) == |t|
  {
    if t == [] {
      assert t + u == u;
    } else {
      assert (t + u)[0] == t[0];
      assert (t + u)[1..] == t[1..] + u;
      LetterRunStopsAt(t[1..], u);
    }
  }

  /** Every input that starts with `data:image/<letters>;base64,` is recognised: the MIME type
      is `image/<letters>` and the payload is exactly what follows the prefix. */
  lemma {:induction false} PrefixedImageSplits(subtype: string, payload: string)
    requires subtype != [] && AllLetters(subtype)
    ensures MatchedSubtype(PrefixFor(subtype) + payload) == Some(subtype)
    ensures MimeTypeOf(PrefixFor(subtype) + payload) == "image/" + subtype
    ensures PayloadOf(PrefixFor(subtype) + payload) == payload
  {
    var s := PrefixFor(subtype) + payload;
    var rest := subtype + (Base64Marker + payload);
    assert s[..|DataImageHead|] == DataImageHead;
    assert s[|DataImageHead|..] == rest;
    LetterRunStopsAt(subtype, Base64Marker + payload);
    assert rest[..|subtype|] == subtype;
    assert rest[|subtype|..] == Base64Marker + payload;
  }

  /** Splitting never loses anything: a recognised input is its prefix followed by its payload,
      and an unrecognised one is sent unchanged as `image/png`. */
  lemma {:induction false} SplitReassembles(image: string)
    ensures MatchedSubtype(image).Some? ==>
      image == "data:" + MimeTypeOf(image) + Base64Marker + PayloadOf(image)
    ensures MatchedSubtype(image).None? ==>
      MimeTypeOf(image) == DefaultMimeType && PayloadOf(image) == image
  {
    if MatchedSubtype(image).Some? {
      var t := MatchedSubtype(image).value;
      assert "data:" + ("image/" + t) + Base64Marker == PrefixFor(t);
      assert image == image[..|PrefixFor(t)|] + image[|PrefixFor(t)|..];
    }
  }

  /** A subtype whose letter run ends at a character other than the `;` of `;base64,` is not
      recognised: the image is sent whole as `image/png`. (When the run ends at a `;`, the input
      may still start with the pattern for the shorter subtype.) */
  lemma {:induction false} NonLetterSubtypeNotRecognised(subtype: string, i: nat, payload: string)
    requires i < |subtype| && AllLetters(subtype[..i])
    requires !IsAsciiLetter(subtype[i]) && subtype[i] != ';'
    ensures MimeTypeOf(PrefixFor(subtype) + payload) == DefaultMimeType
    ensures PayloadOf(PrefixFor(subtype) + payload) == PrefixFor(subtype) + payload
  {
    var s := PrefixFor(subtype) + payload;
    var tail := subtype[i..] + (Base64Marker + payload);
    var rest := subtype[..i] + tail;
    assert s[..|DataImageHead|] == DataImageHead;
    assert subtype == subtype[..i] + subtype[i..];
    assert s[|DataImageHead|..] == rest;
    LetterRunStopsAt(subtype[..i], tail);
    assert rest[i..] == tail;
    assert tail[0] == subtype[i];
  }

  /** For example, the subtype `svg+xml` is not recognised. */
  lemma {:induction false} SvgIsNotRecognised(payload: string)
    ensures MimeTypeOf("data:image/svg+xml;base64," + payload) == DefaultMimeType
    ensures PayloadOf("data:image/svg+xml;base64," + payload) == "data:image/svg+xml;base64," + payload
  {
    var s := "data:image/svg+xml;base64," + payload;
    var rest := s[|DataImageHead|..];
    assert rest == "svg" + ("+xml;base64," + payload);
    LetterRunStopsAt("svg", "+xml;base64," + payload);
    assert rest[3..][0] == '+';
  }

  // ---------------------------------------------------------------------------
  // Composition of the instruction
  // ---------------------------------------------------------------------------

  /** The request part of the instruction: the trimmed prompt, or the default instruction when
      trimming leaves nothing. */
  function UserRequest(prompt: string): string {
    var trimmed := Trim(prompt);
    if trimmed == [] then DefaultInstruction else trimmed
  }

  /** The instruction sent with the image: protocol block, marker, then the user's request. */
  function FinalPrompt(prompt: string): (r: string)
    ensures ProtocolBlock + RequestMarker <= r
  {
    ProtocolBlock + RequestMarker + UserRequest(prompt)
  }

  /** A blank instruction (empty or only white space) is replaced by the default instruction;
      any other is sent trimmed, never empty and without surrounding white space. */
  lemma {:induction false} UserRequestCases(prompt: string)
    ensures AllWhiteSpace(prompt) ==> UserRequest(prompt) == DefaultInstruction
    ensures !AllWhiteSpace(prompt) ==> UserRequest(prompt) == Trim(prompt) != []
    ensures var u := UserRequest(prompt); u != [] && !IsWhiteSpace(u[0]) && !IsWhiteSpace(u[|u| - 1])
  {
    TrimEmptyIff(prompt);
    TrimIsMaximalSlice(prompt);
  }

  /** The composed instruction is the protocol block, the marker and the request, and the
      request part can be read back from it. */
  lemma {:induction false} FinalPromptSplits(prompt: string)
    ensures FinalPrompt(prompt)[..|ProtocolBlock + RequestMarker|] == ProtocolBlock + RequestMarker
    ensures FinalPrompt(prompt)[|ProtocolBlock + RequestMarker|..] == UserRequest(prompt)
  {
  }

  /** White space typed around an instruction does not change what is sent. */
  lemma {:induction false} FinalPromptIgnoresSurroundingSpace(before: string, prompt: string, after: string)
    requires AllWhiteSpace(before) && AllWhiteSpace(after)
    ensures FinalPrompt(before + prompt + after) == FinalPrompt(prompt)
  {
    SurroundingWhiteSpaceIgnored(before, prompt, after);
  }

  // ---------------------------------------------------------------------------
  // Request, reply and extraction
  // ---------------------------------------------------------------------------

  /** What is sent: the image payload with its MIME type, and the composed instruction. */
  datatype Request = Request(mimeType: string, data: string, text: string)

  /** A content part of the reply; `inlineData` carries a base64 payload when present. */
  datatype Part = Part(inlineData: Option<string>)
  datatype Content = Content(parts: Option<seq<Part>>)
  datatype Candidate = Candidate(content: Option<Content>)
  datatype Response = Response(candidates: Option<seq<Candidate>>)

  /** How the call to the service settles: it resolves with a response, or it throws a value
      whose `message` may be absent. */
  datatype Reply = Answered(response: Response) | Thrown(message: Option<string>)

  /** The request for an image and a prompt. A recognised image is sent as its MIME type and
      payload, which put back behind `data:` and around `;base64,` give the image again; any
      other image is sent whole as `image/png`. The text is the protocol block, the marker and
      either the default instruction (for a blank prompt) or the trimmed prompt. */
  function BuildRequest(image: string, prompt: string): (q: Request)
    ensures MatchedSubtype(image).Some? ==> image == "data:" + q.mimeType + Base64Marker + q.data
    ensures MatchedSubtype(image).None? ==> q.mimeType == DefaultMimeType && q.data == image
    ensures q.text == ProtocolBlock + RequestMarker
      + (if AllWhiteSpace(prompt) then DefaultInstruction else Trim(prompt))
  {
    SplitReassembles(image);
    UserRequestCases(prompt);
    Request(MimeTypeOf(image), PayloadOf(image), FinalPrompt(prompt))
  }

  /** The request for an image that starts with `data:image/<letters>;base64,`: that MIME type,
      exactly the text after the prefix as payload, and the composed instruction. */
  lemma {:induction false} BuildRequestForPrefixedImage(subtype: string, payload: string, prompt: string)
    requires subtype != [] && AllLetters(subtype)
    ensures BuildRequest(PrefixFor(subtype) + payload, prompt) == Request(
      "image/" + subtype, payload,
      ProtocolBlock + RequestMarker + (if AllWhiteSpace(prompt) then DefaultInstruction else Trim(prompt)))
  {
    PrefixedImageSplits(subtype, payload);
  }

  /** A key counts as configured only when it is present and not empty. */
  predicate KeyPresent(apiKey: Option<string>) {
    apiKey.Some? && apiKey.value != ""
  }

  /** The parts of the first candidate's content; None when the reply has no candidates, the
      first candidate has no content, or that content has no parts. */
  function PartsOf(response: Response): Option<seq<Part>> {
    match response.candidates
    case None => None
    case Some(candidates) =>
      if candidates == [] then None
      else match candidates[0].content
        case None => None
        case Some(content) => content.parts
  }

  /** Index of the first part carrying inline data: every part before it carries none;
      None when no part carries any. */
  function FirstInlineIndex(parts: seq<Part>): (k: Option<nat>)
    ensures k.Some? ==> k.value < |parts| && parts[k.value].inlineData.Some?
    ensures k.Some? ==> forall j :: 0 <= j < k.value ==> parts[j].inlineData.None?
    ensures k.None? ==> forall j :: 0 <= j < |parts| ==> parts[j].inlineData.None?
  {
    if parts == [] then None
    else if parts[0].inlineData.Some? then Some(0)
    else match FirstInlineIndex(parts[1..])
      case None => None
      case Some(i) => Some(i + 1)
  }

  /** The message the catch rethrows: the caught error's own message, or the fallback message
      when that is absent or empty. */
  function ErrorMessage(thrown: Option<string>): (m: string)
    ensures m != []
    ensures thrown.Some? && thrown.value != [] ==> m == thrown.value
    ensures thrown.None? || thrown.value == [] ==> m == FallbackMessage
  {
    match thrown
    case Some(text) => if text != [] then text else FallbackMessage
    case None => FallbackMessage
  }

  /** Everything after the request is sent: the errors thrown inside the `try` pass through
      the catch, which rethrows them with `ErrorMessage`. */
  function ReplyOutcome(reply: Reply): Result<string> {
    match reply
    case Thrown(m) => Failure(ErrorMessage(m))
    case Answered(response) =>
      match PartsOf(response)
      case None => Failure(ErrorMessage(Some(NoPartsMessage)))
      case Some(parts) =>
        match FirstInlineIndex(parts)
        case None => Failure(ErrorMessage(Some(NoImageMessage)))
        case Some(k) => Success(PngDataUriPrefix + parts[k].inlineData.value)
  }

  /** What `editImage` returns or throws when the service answers requests with `service`. */
  function EditOutcome(apiKey: Option<string>, image: string, prompt: string,
                       service: Request -> Reply): Result<string>
  {
    if !KeyPresent(apiKey) then Failure(MissingKeyMessage)
    else ReplyOutcome(service(BuildRequest(image, prompt)))
  }

  /** The loop over the parts: the PNG data URI of the first part with inline data, or the
      empty string when there is none. */
  method FirstInlineImage(parts: seq<Part>) returns (resultImage: string)
    ensures FirstInlineIndex(parts).None? ==> resultImage == []
    ensures FirstInlineIndex(parts).Some? ==>
      resultImage == PngDataUriPrefix + parts[FirstInlineIndex(parts).value].inlineData.value
  {
    resultImage := "";
    for i := 0 to |parts|
      invariant resultImage == []
      invariant forall j :: 0 <= j < i ==> parts[j].inlineData.None?
    {
      if parts[i].inlineData.Some? {
        resultImage := PngDataUriPrefix + parts[i].inlineData.value;
        assert FirstInlineIndex(parts) == Some(i);
        break;
      }
    }
  }

  /** The `try` block after the call: rethrow a thrown error, then check for parts, scan
      them, and fail when no image was found. */
  method SettleReply(reply: Reply) returns (r: Result<string>)
    ensures r == ReplyOutcome(reply)
  {
    if reply.Thrown? {
      return Failure(ErrorMessage(reply.message));
    }
    var parts := PartsOf(reply.response);
    if parts.None? {
      return Failure(ErrorMessage(Some(NoPartsMessage)));
    }
    var resultImage := FirstInlineImage(parts.value);
    if resultImage == "" {
      return Failure(ErrorMessage(Some(NoImageMessage)));
    }
    return Success(resultImage);
  }

  /** `editImage`: returns the request it sent (None when it stops before the service call)
      and the outcome. */
  method EditImage(apiKey: Option<string>, image: string, prompt: string,
                   service: Request -> Reply)
    returns (sent: Option<Request>, r: Result<string>)
    ensures sent == if KeyPresent(apiKey) then Some(BuildRequest(image, prompt)) else None
    ensures r == EditOutcome(apiKey, image, prompt, service)
  {
    if apiKey.None? || apiKey.value == "" {
      return None, Failure(MissingKeyMessage);
    }
    var request := BuildRequest(image, prompt);
    sent := Some(request);
    var reply := service(request);
    r := SettleReply(reply);
  }

  // ---------------------------------------------------------------------------
  // Properties of the outcome
  // ---------------------------------------------------------------------------

  /** With an absent or empty key the call fails with the missing-key message, whatever the
      image, the instruction and the service. */
  lemma {:induction false} MissingKeyFails(apiKey: Option<string>, image: string, prompt: string, service: Request -> Reply)
    requires !KeyPresent(apiKey)
    ensures EditOutcome(apiKey, image, prompt, service) == Failure(MissingKeyMessage)
  {
  }

  /** A reply without parts, and a reply whose parts carry no inline data, fail with their
      own messages, which the catch keeps as they are. */
  lemma {:induction false} ExtractionFailures(response: Response)
    ensures PartsOf(response).None? ==>
      ReplyOutcome(Answered(response)) == Failure(NoPartsMessage)
    ensures PartsOf(response).Some? && FirstInlineIndex(PartsOf(response).value).None? ==>
      ReplyOutcome(Answered(response)) == Failure(NoImageMessage)
  {
  }

  /** When some part carries inline data, the result is the PNG data URI of the first such
      part's payload. */
  lemma {:induction false} SuccessIsFirstInlinePart(response: Response, k: nat)
    requires PartsOf(response).Some? && k < |PartsOf(response).value|
    requires PartsOf(response).value[k].inlineData.Some?
    requires forall j :: 0 <= j < k ==> PartsOf(response).value[j].inlineData.None?
    ensures ReplyOutcome(Answered(response)) ==
      Success(PngDataUriPrefix + PartsOf(response).value[k].inlineData.value)
  {
    var parts := PartsOf(response).value;
    var i := FirstInlineIndex(parts);
    assert i.Some?;
  }

  /** A reply succeeds exactly when it has parts and one of them carries inline data. */
  lemma {:induction false} SucceedsIffSomeInlinePart(response: Response)
    ensures ReplyOutcome(Answered(response)).Success? <==>
      PartsOf(response).Some? &&
      exists k :: 0 <= k < |PartsOf(response).value| && PartsOf(response).value[k].inlineData.Some?
  {
    if PartsOf(response).Some? {
      var parts := PartsOf(response).value;
      var i := FirstInlineIndex(parts);
      if i.Some? {
        assert parts[i.value].inlineData.Some?;
      }
    }
  }

  /** Parts after the first one with inline data are ignored. */
  lemma {:induction false} LaterPartsIgnored(parts: seq<Part>, later: seq<Part>)
    requires FirstInlineIndex(parts).Some?
    ensures FirstInlineIndex(parts + later) == FirstInlineIndex(parts)
  {
    var k := FirstInlineIndex(parts).value;
    var both := parts + later;
    assert both[k] == parts[k];
    assert forall j :: 0 <= j < k ==> both[j] == parts[j];
    var i := FirstInlineIndex(both);
    assert i.Some?;
  }

  /** Whatever the service replies, a success is a PNG data URI and a failure carries a
      non-empty message. */
  lemma {:induction false} ReplyOutcomeShape(reply: Reply)
    ensures var r := ReplyOutcome(reply);
      (r.Success? ==> PngDataUriPrefix <= r.value) && (r.Failure? ==> r.message != [])
  {
  }

  /** Every success is a PNG data URI, and every failure carries a non-empty message. */
  lemma {:induction false} OutcomeShape(apiKey: Option<string>, image: string, prompt: string, service: Request -> Reply)
    ensures var r := EditOutcome(apiKey, image, prompt, service);
      (r.Success? ==> PngDataUriPrefix <= r.value) && (r.Failure? ==> r.message != [])
  {
    if KeyPresent(apiKey) {
      ReplyOutcomeShape(service(BuildRequest(image, prompt)));
    }
  }

  /** An edited image fed back in is recognised as `image/png` with exactly the payload the
      service returned, whatever the MIME type of the image that was sent. */
  lemma {:induction false} ResultReparses(payload: string)
    ensures MimeTypeOf(PngDataUriPrefix + payload) == DefaultMimeType
    ensures PayloadOf(PngDataUriPrefix + payload) == payload
  {
    assert PngDataUriPrefix == PrefixFor("png");
    PrefixedImageSplits("png", payload);
  }
}
