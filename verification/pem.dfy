/** Normalisation of the PEM text of the public key file before base64 decoding. */
module Pem {
  import opened Text

  const BeginMarker: string := "-----BEGIN PUBLIC KEY-----"
  const EndMarker: string := "-----END PUBLIC KEY-----"

  /** The line-break characters the normalisation deletes. */
  const LineBreaks: set<char> := {'\n', '\r'}

  /** Delete every line feed, then every carriage return, then every begin
      marker, then every end marker, in that order. */
  function Normalise(pem: string): (r: string)
    ensures '\n' !in r && '\r' !in r
    ensures IsSubsequence(r, pem)
  {
    var noLf := RemoveAll(pem, "\n");
    var noCr := RemoveAll(noLf, "\r");
    var noBegin := RemoveAll(noCr, BeginMarker);
    var r := RemoveAll(noBegin, EndMarker);
    NormaliseFacts(pem, noLf, noCr, noBegin, r);
    r
  }

  lemma NormaliseFacts(pem: string, noLf: string, noCr: string, noBegin: string, r: string)
    requires noLf == RemoveAll(pem, "\n") && noCr == RemoveAll(noLf, "\r")
    requires noBegin == RemoveAll(noCr, BeginMarker) && r == RemoveAll(noBegin, EndMarker)
    ensures '\n' !in r && '\r' !in r
    ensures IsSubsequence(r, pem)
  {
    RemoveAllSubsequence(pem, "\n");
    RemoveAllSubsequence(noLf, "\r");
    RemoveAllSubsequence(noCr, BeginMarker);
    RemoveAllSubsequence(noBegin, EndMarker);
    SubsequenceTransitive(noCr, noLf, pem);
    SubsequenceTransitive(noBegin, noCr, pem);
    SubsequenceTransitive(r, noBegin, pem);
    RemoveCharIsDropChars(pem, '\n');
    RemoveCharIsDropChars(noLf, '\r');
    SubsequenceTransitive(noBegin, noCr, noLf);
    SubsequenceTransitive(r, noBegin, noLf);
    SubsequenceTransitive(r, noBegin, noCr);
    DropCharsAvoids(pem, {'\n'});
    DropCharsAvoids(noLf, {'\r'});
    SubsequenceAvoids(r, noLf, {'\n'});
    SubsequenceAvoids(r, noCr, {'\r'});
  }

  /** A character of the base64 alphabet, padding included. */
  predicate IsBase64Char(c: char)
  {
    ('A' <= c <= 'Z') || ('a' <= c <= 'z') || ('0' <= c <= '9') || c == '+' || c == '/' || c == '='
  }

  predicate IsBase64Line(line: string)
  {
    forall k :: 0 <= k < |line| ==> IsBase64Char(line[k])
  }

  /** Each line followed by the line terminator `eol`. */
  function Lines(body: seq<string>, eol: string): string
  {
    if |body| == 0 then "" else body[0] + eol + Lines(body[1..], eol)
  }

  function Concat(body: seq<string>): string
  {
    if |body| == 0 then "" else body[0] + Concat(body[1..])
  }

  /** The public key file as key tools write it: begin marker, base64 lines, end marker. */
  function Encapsulate(body: seq<string>, eol: string): string
  {
    BeginMarker + eol + Lines(body, eol) + EndMarker + eol
  }

  lemma {:induction false} LinesWithoutBreaks(body: seq<string>, eol: string)
    requires forall i :: 0 <= i < |body| ==> IsBase64Line(body[i])
    requires forall k :: 0 <= k < |eol| ==> eol[k] in LineBreaks
    ensures DropChars(Lines(body, eol), LineBreaks) == Concat(body)
    ensures forall k :: 0 <= k < |Concat(body)| ==> IsBase64Char(Concat(body)[k])
    decreases |body|
  {
    if |body| > 0 {
      LinesWithoutBreaks(body[1..], eol);
      var line := body[0];
      assert IsBase64Line(line);
      assert Avoids(line, LineBreaks);
      DropCharsConcat(line + eol, Lines(body[1..], eol), LineBreaks);
      DropCharsConcat(line, eol, LineBreaks);
      DropCharsAvoided(line, LineBreaks);
      DropCharsAll(eol, LineBreaks);
      var rest := Concat(body[1..]);
      assert Concat(body) == line + rest;
      forall k | 0 <= k < |Concat(body)|
        ensures IsBase64Char(Concat(body)[k])
      {
        if k >= |line| {
          assert Concat(body)[k] == rest[k - |line|];
        }
      }
    }
  }

  /** The first two steps of the normalisation drop every line break. */
  lemma LineBreakSteps(text: string)
    ensures RemoveAll(RemoveAll(text, "\n"), "\r") == DropChars(text, LineBreaks)
  {
    RemoveCharIsDropChars(text, '\n');
    RemoveCharIsDropChars(RemoveAll(text, "\n"), '\r');
    DropCharsTwice(text, {'\n'}, {'\r'});
    assert {'\n'} + {'\r'} == LineBreaks;
  }

  /** Dropping characters from a concatenation, with both halves already known. */
  lemma DropCharsJoin(x: string, y: string, d: set<char>, dx: string, dy: string)
    requires DropChars(x, d) == dx && DropChars(y, d) == dy
    ensures DropChars(x + y, d) == dx + dy
  {
    DropCharsConcat(x, y, d);
  }

  /** Dropping the line breaks from a framed key text leaves the two markers around the body. */
  lemma {:induction false} FramedWithoutBreaks(a: string, eol: string, lines: string, e: string, b64: string)
    requires Avoids(a, LineBreaks) && Avoids(e, LineBreaks)
    requires forall k :: 0 <= k < |eol| ==> eol[k] in LineBreaks
    requires DropChars(lines, LineBreaks) == b64
    ensures DropChars(a + eol + lines + e + eol, LineBreaks) == a + (b64 + e)
  {
    DropCharsAvoided(a, LineBreaks);
    DropCharsAvoided(e, LineBreaks);
    DropCharsAll(eol, LineBreaks);
    FramedSteps(a, eol, lines, e, LineBreaks, b64);
  }

  /** The same, for any dropped set, one concatenation at a time. */
  lemma FramedSteps(a: string, eol: string, lines: string, e: string, d: set<char>, b64: string)
    requires DropChars(a, d) == a && DropChars(e, d) == e && DropChars(eol, d) == ""
    requires DropChars(lines, d) == b64
    ensures DropChars(a + eol + lines + e + eol, d) == a + (b64 + e)
  {
    var x1 := a + eol;
    var x2 := x1 + lines;
    var x3 := x2 + e;
    DropCharsJoin(a, eol, d, a, "");
    EmptyRight(a);
    DropCharsJoin(x1, lines, d, a, b64);
    DropCharsJoin(x2, e, d, a + b64, e);
    DropCharsJoin(x3, eol, d, a + b64 + e, "");
    EmptyRight(a + b64 + e);
    Associative(a, b64, e);
  }

  lemma EmptyRight(x: string)
    ensures x + "" == x
  {
  }

  lemma Associative(x: string, y: string, z: string)
    ensures x + y + z == x + (y + z)
  {
  }

  /** Removing both markers from `begin + body + end` leaves the body, when the
      body has no dash that could start a marker. */
  lemma MarkerSteps(b64: string)
    requires forall k :: 0 <= k < |b64| ==> b64[k] != '-'
    ensures RemoveAll(RemoveAll(BeginMarker + (b64 + EndMarker), BeginMarker), EndMarker) == b64
  {
    RemoveAllLeading(BeginMarker, b64 + EndMarker);
    RemoveAllSkips(b64, EndMarker, BeginMarker);
    assert RemoveAll(EndMarker, BeginMarker) == EndMarker;
    RemoveAllSkips(b64, EndMarker, EndMarker);
    RemoveAllLeading(EndMarker, "");
    assert EndMarker + "" == EndMarker;
    assert b64 + "" == b64;
  }

  /** Any text whose line-break-free form is `begin + body + end` normalises to the body. */
  lemma {:induction false} NormaliseFramed(text: string, b64: string)
    requires DropChars(text, LineBreaks) == BeginMarker + (b64 + EndMarker)
    requires forall k :: 0 <= k < |b64| ==> b64[k] != '-'
    ensures Normalise(text) == b64
  {
    LineBreakSteps(text);
    MarkerSteps(b64);
  }

  /** Normalising a well-formed key file yields exactly its base64 body with the
      line breaks removed, whatever mix of line feeds and carriage returns ends its lines. */
  lemma {:induction false} NormaliseEncapsulated(body: seq<string>, eol: string)
    requires forall k :: 0 <= k < |eol| ==> eol[k] in LineBreaks
    requires forall i :: 0 <= i < |body| ==> IsBase64Line(body[i])
    ensures Normalise(Encapsulate(body, eol)) == Concat(body)
  {
    var b64 := Concat(body);
    var text := Encapsulate(body, eol);
    LinesWithoutBreaks(body, eol);
    assert Avoids(BeginMarker, LineBreaks) && Avoids(EndMarker, LineBreaks);
    FramedWithoutBreaks(BeginMarker, eol, Lines(body, eol), EndMarker, b64);
    assert DropChars(text, LineBreaks) == BeginMarker + (b64 + EndMarker);
    assert forall k :: 0 <= k < |b64| ==> b64[k] != '-';
    NormaliseFramed(text, b64);
  }
}
