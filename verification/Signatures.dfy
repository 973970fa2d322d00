/**
 The RFC 9421 profile (server/bs/sig9421.go): the Signature-Input header, its parser, and the signature base of
 section 2.5. A header value is a function of its name; quoting of a character is known where it matters.
 */
module Signatures {
  import opened Strings
  import opened Wrappers
  import Jcs

  type Header = string -> string

  /** How one character is written inside a quoted string. */
  type Quoting = char -> string

  /** What is known of it: plain characters stand for themselves, the others are escaped behind a backslash. */
  ghost predicate QuotingOk(q: Quoting)
  {
    forall c: char ::
      && (q(c) == [c] || (|q(c)| >= 2 && q(c)[0] == '\\' && ';' !in q(c)))
      && q('"') == "\\\"" && q('\\') == "\\\\"
      && (q(c) == [c] || c == '"' || '"' !in q(c))
      && (Letter(c) || Digit(c) || c in {'@', '-', ';'} ==> q(c) == [c])
  }

  const BODY_COMPONENTS: seq<string> := ["@method", "@target-uri", "content-digest", "upload-offset", "mlp-reservation"]
  const HEAD_COMPONENTS: seq<string> := ["@method", "@target-uri", "mlp-reservation"]

  /** A parsed header; params is the part that goes into the base verbatim. */
  datatype SigInput = SigInput(components: seq<string>, params: string, created: int, keyid: string)

  datatype SigError = NoLabel | MalformedList | Unterminated | Unquoted | BadCreated | BadAlg | UnknownParam | Missing
                    | Panic | AbsentComponent | WrongComponents | Stale | BadSignature

  // ----- parsing -----

  predicate Solid(c: char) { !Space(c) }

  /** The maximal runs without white space. */
  function Fields(s: string): seq<string>
    decreases |s|
  {
    var t := s[Span(s, Space)..];
    if t == "" then []
    else
      var n := Span(t, Solid);
      [t[..n]] + Fields(t[n..])
  }

  predicate QuotedField(c: string)
  {
    |c| >= 2 && c[0] == '"' && c[|c| - 1] == '"'
  }

  function Unquote(fields: seq<string>): Option<seq<string>>
  {
    if fields == [] then Some([])
    else
      var front, last := Unquote(fields[..|fields| - 1]), fields[|fields| - 1];
      if front.None? || !QuotedField(last) then None else Some(front.value + [last[1..|last| - 1]])
  }

  /** A decimal number with an optional sign, in the 64-bit range. */
  function ReadInt(s: string): Option<int>
  {
    var digits := if s != "" && (s[0] == '-' || s[0] == '+') then s[1..] else s;
    if digits == "" || !Jcs.AllDigits(digits) then None
    else
      var m: int := Jcs.DigitsValue(digits);
      var n := if s[0] == '-' then -m else m;
      if -Jcs.INT64_MAX - 1 <= n <= Jcs.INT64_MAX then Some(n) else None
  }

  const CREATED := "created="
  const KEYID := "keyid=\""
  const ALG := "alg=\""
  const ED25519 := "alg=\"ed25519\""

  /** What one parameter sets; a quote that both opens and closes the key id is sliced out of range, a panic. */
  function ReadParam(p: string, created: int, keyid: string): Result<(int, string), SigError>
  {
    if p == "" then Ok((created, keyid))
    else if CREATED <= p then
      var n := ReadInt(p[|CREATED|..]);
      if n.None? then Err(BadCreated) else Ok((n.value, keyid))
    else if KEYID <= p && p[|p| - 1] == '"' then
      if |p| == |KEYID| then Err(Panic) else Ok((created, p[|KEYID|..|p| - 1]))
    else if p == ED25519 then Ok((created, keyid))
    else if ALG <= p then Err(BadAlg)
    else Err(UnknownParam)
  }

  function ReadParams(pieces: seq<string>, created: int, keyid: string): Result<(int, string), SigError>
    decreases |pieces|
  {
    if pieces == [] then Ok((created, keyid))
    else
      match ReadParam(Trim(pieces[0], Space), created, keyid)
      case Err(e) => Err(e)
      case Ok((c, k)) => ReadParams(pieces[1..], c, k)
  }

  const LABEL := "mlp="

  function ParseInput(h: string): Result<SigInput, SigError>
  {
    if !(LABEL <= h) then Err(NoLabel)
    else
      var rest := h[|LABEL|..];
      if rest == "" || rest[0] != '(' then Err(MalformedList)
      else
        var end := IndexOf(rest, ')');
        if end == |rest| then Err(Unterminated)
        else
          var components := Unquote(Fields(rest[1..end]));
          if components.None? then Err(Unquoted)
          else
            match ReadParams(Split(rest[end + 1..], ';'), 0, "")
            case Err(e) => Err(e)
            case Ok((created, keyid)) =>
              if created == 0 || keyid == "" then Err(Missing) else Ok(SigInput(components.value, rest, created, keyid))
  }

  /** ParseSignatureInput: the struct filled over its two loops. */
  method ParseSignatureInput(h: string) returns (r: Result<SigInput, SigError>)
    ensures r == ParseInput(h)
  {
    hide Fields, Split, Trim, ReadParam, IndexOf;
    if !(LABEL <= h) { return Err(NoLabel); }
    var rest := h[|LABEL|..];
    if rest == "" || rest[0] != '(' { return Err(MalformedList); }
    var end := IndexOf(rest, ')');
    if end == |rest| { return Err(Unterminated); }
    var fields, components := Fields(rest[1..end]), [];
    for i := 0 to |fields|
      invariant Unquote(fields[..i]) == Some(components)
    {
      assert fields[..i + 1][..i] == fields[..i];
      var c := fields[i];
      if !QuotedField(c) {
        UnquoteFails(fields, i + 1);
        return Err(Unquoted);
      }
      components := components + [c[1..|c| - 1]];
    }
    assert fields[..|fields|] == fields;
    var pieces := Split(rest[end + 1..], ';');
    var created, keyid := 0, "";
    for i := 0 to |pieces|
      invariant ReadParams(pieces[i..], created, keyid) == ReadParams(pieces, 0, "")
    {
      assert pieces[i..][1..] == pieces[i + 1..];
      match ReadParam(Trim(pieces[i], Space), created, keyid) {
        case Err(e) => return Err(e);
        case Ok((c, k)) => created, keyid := c, k;
      }
    }
    if created == 0 || keyid == "" { return Err(Missing); }
    return Ok(SigInput(components, rest, created, keyid));
  }

  lemma UnquoteFails(fields: seq<string>, n: nat)
    requires n <= |fields| && Unquote(fields[..n]).None?
    ensures Unquote(fields).None?
    decreases |fields| - n
  {
    if n < |fields| {
      assert fields[..n + 1][..n] == fields[..n];
      UnquoteFails(fields, n + 1);
    } else {
      assert fields[..n] == fields;
    }
  }

  // ----- the base -----

  function Inner(q: Quoting, s: string): string
  {
    if s == "" then "" else q(s[0]) + Inner(q, s[1..])
  }

  function Quoted(q: Quoting, s: string): string
  {
    "\"" + Inner(q, s) + "\""
  }

  predicate Derived(c: string) { c == "@method" || c == "@target-uri" }

  function ValueOf(c: string, verb: string, uri: string, header: Header): string
  {
    if c == "@method" then verb else if c == "@target-uri" then uri else header(c)
  }

  function Line(q: Quoting, c: string, value: string): string
  {
    Quoted(q, c) + ": " + value
  }

  function Lines(q: Quoting, components: seq<string>, verb: string, uri: string, header: Header): seq<string>
  {
    if components == [] then []
    else
      var c := components[|components| - 1];
      Lines(q, components[..|components| - 1], verb, uri, header) + [Line(q, c, ValueOf(c, verb, uri, header))]
  }

  predicate Present(components: seq<string>, header: Header)
  {
    forall c :: c in components && !Derived(c) ==> header(c) != ""
  }

  function Base(q: Quoting, verb: string, uri: string, header: Header, si: SigInput): Result<string, SigError>
  {
    if !Present(si.components, header) then Err(AbsentComponent)
    else Ok(Join(Lines(q, si.components, verb, uri, header), '\n') + "\n" + Line(q, "@signature-params", si.params))
  }

  /** BuildBase: one line appended for each covered component. */
  method BuildBase(q: Quoting, verb: string, uri: string, header: Header, si: SigInput)
    returns (r: Result<string, SigError>)
    ensures r == Base(q, verb, uri, header, si)
  {
    hide Line, ValueOf;
    var b := "";
    for i := 0 to |si.components|
      invariant forall j :: 0 <= j < i && !Derived(si.components[j]) ==> header(si.components[j]) != ""
      invariant b == Join(Lines(q, si.components[..i], verb, uri, header), '\n')
      invariant |Lines(q, si.components[..i], verb, uri, header)| == i
    {
      assert si.components[..i + 1][..i] == si.components[..i];
      var c := si.components[i];
      var lines := Lines(q, si.components[..i], verb, uri, header);
      JoinNext(lines, Line(q, c, ValueOf(c, verb, uri, header)), '\n');
      if i > 0 { b := b + "\n"; }
      if !Derived(c) && header(c) == "" { return Err(AbsentComponent); }
      b := b + Line(q, c, ValueOf(c, verb, uri, header));
    }
    assert si.components[..|si.components|] == si.components;
    return Ok(b + "\n" + Line(q, "@signature-params", si.params));
  }

  lemma JoinNext(parts: seq<string>, last: string, sep: char)
    ensures Join(parts + [last], sep) == Join(parts, sep) + (if parts == [] then "" else [sep]) + last
  {
    assert (parts + [last])[..|parts|] == parts;
  }

  /** The covered components of a request, and the parameters its signer writes. */
  function Components(hasBody: bool): seq<string>
  {
    if hasBody then BODY_COMPONENTS else HEAD_COMPONENTS
  }

  function InQuotes(components: seq<string>): (r: seq<string>)
    ensures |r| == |components| && forall i :: 0 <= i < |r| ==> r[i] == "\"" + components[i] + "\""
  {
    seq(|components|, i requires 0 <= i < |components| => "\"" + components[i] + "\"")
  }

  function Params(q: Quoting, hasBody: bool, created: int, kid: string): string
  {
    "(" + Join(InQuotes(Components(hasBody)), ' ') + ")"
    + (";" + CREATED + Jcs.FormatInt(created)) + (";keyid=" + Quoted(q, kid)) + (";" + ED25519)
  }

  /** SignRequest's two headers, the signature before base64. */
  function SignRequest(q: Quoting, sign: string -> string, kid: string, verb: string, uri: string, header: Header,
                       created: int, hasBody: bool): Result<(string, string), SigError>
  {
    var params := Params(q, hasBody, created, kid);
    match Base(q, verb, uri, header, SigInput(Components(hasBody), params, created, kid))
    case Err(e) => Err(e)
    case Ok(b) => Ok((LABEL + params, sign(b)))
  }

  // ----- verification -----

  const FRESHNESS := 300

  /** componentsEqual: exactly as ordered. */
  method ComponentsEqual(a: seq<string>, b: seq<string>) returns (same: bool)
    ensures same <==> a == b
  {
    if |a| != |b| { return false; }
    for i := 0 to |a|
      invariant forall j :: 0 <= j < i ==> a[j] == b[j]
    {
      if a[i] != b[i] { return false; }
    }
    return true;
  }

  /** The verdict on a request: verify says whether a key id's key made a signature over a base. */
  function Verified(q: Quoting, verify: (string, string, string) -> bool, verb: string, uri: string, header: Header,
                    sig: string, hasBody: bool, now: int): Option<SigError>
  {
    match ParseInput(header("signature-input"))
    case Err(e) => Some(e)
    case Ok(si) =>
      if si.components != Components(hasBody) then Some(WrongComponents)
      else if now - si.created > FRESHNESS || now - si.created < -FRESHNESS then Some(Stale)
      else
        match Base(q, verb, uri, header, si)
        case Err(e) => Some(e)
        case Ok(base) => if verify(si.keyid, base, sig) then None else Some(BadSignature)
  }

  /** verifySignature, over a signature that is decoded and keys that are resolved. */
  method VerifySignature(q: Quoting, verify: (string, string, string) -> bool, verb: string, uri: string,
                         header: Header,
                         sig: string, hasBody: bool, now: int) returns (error: Option<SigError>)
    ensures error == Verified(q, verify, verb, uri, header, sig, hasBody, now)
  {
    hide ParseInput, Base;
    var parsed := ParseSignatureInput(header("signature-input"));
    if parsed.Err? { return Some(parsed.error); }
    var si := parsed.value;
    var same := ComponentsEqual(si.components, Components(hasBody));
    if !same { return Some(WrongComponents); }
    var d := now - si.created;
    if d > FRESHNESS || d < -FRESHNESS { return Some(Stale); }
    var base := BuildBase(q, verb, uri, header, si);
    if base.Err? { return Some(base.error); }
    if !verify(si.keyid, base.value, sig) { return Some(BadSignature); }
    return None;
  }
}
