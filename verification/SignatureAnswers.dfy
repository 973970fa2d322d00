/** Which signed requests are accepted, and over which text (server/bs/sig9421.go, server/bs/bs.go:180-228). */
module SignatureAnswers {
  import opened Signatures
  import opened SignatureProofs
  import opened Strings
  import opened Wrappers
  import Jcs

  // ----- quoting -----

  const HEX := "0123456789abcdef"

  /** The k lowest hexadecimal digits. */
  function Hex(n: nat, k: nat): (s: string)
    ensures |s| == k && forall i :: 0 <= i < k ==> s[i] in HEX
  {
    if k == 0 then "" else Hex(n / 16, k - 1) + [HEX[n % 16]]
  }

  /** One character inside quotes as Go writes it, given which characters are printable. */
  function GoQuoted(printable: char -> bool, c: char): string
  {
    if c == '"' || c == '\\' then ['\\', c]
    else if printable(c) then [c]
    else if c == '\U{7}' then "\\a"
    else if c == '\U{8}' then "\\b"
    else if c == '\U{C}' then "\\f"
    else if c == '\n' then "\\n"
    else if c == '\r' then "\\r"
    else if c == '\t' then "\\t"
    else if c == '\U{B}' then "\\v"
    else if c < ' ' || c == '\U{7F}' then "\\x" + Hex(c as nat, 2)
    else if c < '\U{10000}' then "\\u" + Hex(c as nat, 4)
    else "\\U" + Hex(c as nat, 8)
  }

  /** What is assumed of quoting holds of Go's. */
  lemma GoQuotingOk(printable: char -> bool)
    requires forall c :: Letter(c) || Digit(c) || c in {'@', '-', ';'} ==> printable(c)
    ensures QuotingOk(c => GoQuoted(printable, c))
  {
    assert ';' !in HEX && '"' !in HEX;
    forall c: char
      ensures var q := GoQuoted(printable, c);
              && (q == [c] || (|q| >= 2 && q[0] == '\\' && ';' !in q))
              && (q == [c] || c == '"' || '"' !in q)
              && (Letter(c) || Digit(c) || c in {'@', '-', ';'} ==> q == [c])
    {
      hide HEX;
    }
  }

  // ----- the signed text -----

  /** The profile's covered components, in order. */
  function Profile(hasBody: bool): seq<string>
  {
    if hasBody then ["@method", "@target-uri", "content-digest", "upload-offset", "mlp-reservation"]
    else ["@method", "@target-uri", "mlp-reservation"]
  }

  /** Every covered header is there. */
  predicate AllPresent(hasBody: bool, header: Header)
  {
    header("mlp-reservation") != "" && (hasBody ==> header("content-digest") != "" && header("upload-offset") != "")
  }

  /** A quoted name, a colon, a space and a value on a line. */
  function Entry(name: string, value: string): string
  {
    "\"" + name + "\": " + value + "\n"
  }

  /** The lines of the covered components. */
  function Covered(hasBody: bool, verb: string, uri: string, header: Header): string
  {
    Entry("@method", verb) + Entry("@target-uri", uri)
    + (if hasBody then
         Entry("content-digest", header("content-digest")) + Entry("upload-offset", header("upload-offset"))
       else "")
    + Entry("mlp-reservation", header("mlp-reservation"))
  }

  /** The signed text: a line for each covered component, and the parameters as they came, without a line break. */
  function SignedText(hasBody: bool, verb: string, uri: string, header: Header, params: string): string
  {
    Covered(hasBody, verb, uri, header) + "\"@signature-params\": " + params
  }

  lemma {:induction false} PlainInner(q: Quoting, s: string)
    requires forall i :: 0 <= i < |s| ==> q(s[i]) == [s[i]]
    ensures Inner(q, s) == s
  {
    if s != "" {
      PlainInner(q, s[1..]);
      assert s == [s[0]] + s[1..];
    }
  }

  /** The component names stand for themselves inside quotes. */
  lemma PlainName(q: Quoting, c: string)
    requires QuotingOk(q)
    requires c in {"@method", "@target-uri", "content-digest", "upload-offset", "mlp-reservation", "@signature-params"}
    ensures Quoted(q, c) == "\"" + c + "\""
  {
    forall i | 0 <= i < |c| ensures q(c[i]) == [c[i]]
    {
      assert Letter(c[i]) || c[i] in {'@', '-'};
    }
    PlainInner(q, c);
  }

  lemma LinesOf(q: Quoting, front: seq<string>, c: string, verb: string, uri: string, header: Header)
    ensures Lines(q, front + [c], verb, uri, header)
            == Lines(q, front, verb, uri, header) + [Line(q, c, ValueOf(c, verb, uri, header))]
  {
    assert (front + [c])[..|front|] == front;
  }

  /** The text so far, with a line break after every line. */
  function Broken(q: Quoting, components: seq<string>, verb: string, uri: string, header: Header): string
  {
    Join(Lines(q, components, verb, uri, header), '\n') + if components == [] then "" else "\n"
  }

  lemma OneMoreLine(q: Quoting, front: seq<string>, c: string, verb: string, uri: string, header: Header)
    requires QuotingOk(q)
    requires c in {"@method", "@target-uri", "content-digest", "upload-offset", "mlp-reservation"}
    ensures Broken(q, front + [c], verb, uri, header)
            == Broken(q, front, verb, uri, header) + Entry(c, ValueOf(c, verb, uri, header))
  {
    hide Join, ValueOf, Lines, Quoted;
    PlainName(q, c);
    LinesOf(q, front, c, verb, uri, header);
    LineCount(q, front, verb, uri, header);
    JoinNext(Lines(q, front, verb, uri, header), Line(q, c, ValueOf(c, verb, uri, header)), '\n');
    EmptyJoin();
  }

  lemma EmptyJoin()
    ensures Join([], '\n') == ""
  {
  }

  lemma {:induction false} LineCount(q: Quoting, components: seq<string>, verb: string, uri: string, header: Header)
    ensures |Lines(q, components, verb, uri, header)| == |components|
  {
    if components != [] { LineCount(q, components[..|components| - 1], verb, uri, header); }
  }

  lemma BaseIs(q: Quoting, hasBody: bool, verb: string, uri: string, header: Header, si: SigInput)
    requires QuotingOk(q) && si.components == Profile(hasBody)
    ensures Base(q, verb, uri, header, si)
            == if AllPresent(hasBody, header) then Ok(SignedText(hasBody, verb, uri, header, si.params))
               else Err(AbsentComponent)
  {
    hide Join, Lines, QuotingOk, Broken, Quoted, Covered, Present, AllPresent;
    PresentIs(hasBody, header);
    PlainName(q, "@signature-params");
    BrokenIs(q, hasBody, verb, uri, header);
    BrokenJoin(q, Profile(hasBody), verb, uri, header);
    var covered, name := Covered(hasBody, verb, uri, header), "\"@signature-params\": ";
    assert Line(q, "@signature-params", si.params) == name + si.params;
    assert covered + (name + si.params) == covered + name + si.params;
  }

  lemma BrokenJoin(q: Quoting, components: seq<string>, verb: string, uri: string, header: Header)
    requires components != []
    ensures Broken(q, components, verb, uri, header) == Join(Lines(q, components, verb, uri, header), '\n') + "\n"
  {
  }

  lemma PresentIs(hasBody: bool, header: Header)
    ensures Present(Profile(hasBody), header) <==> AllPresent(hasBody, header)
  {
    var p := Profile(hasBody);
    assert !Derived("mlp-reservation") && !Derived("content-digest") && !Derived("upload-offset");
    assert Derived("@method") && Derived("@target-uri");
    if Present(p, header) {
      assert p[|p| - 1] == "mlp-reservation" && p[|p| - 1] in p;
      if hasBody { assert p[2] == "content-digest" && p[2] in p && p[3] == "upload-offset" && p[3] in p; }
    }
  }

  lemma BrokenIs(q: Quoting, hasBody: bool, verb: string, uri: string, header: Header)
    requires QuotingOk(q)
    ensures Broken(q, Profile(hasBody), verb, uri, header) == Covered(hasBody, verb, uri, header)
  {
    hide QuotingOk, Broken, Entry;
    NothingBroken(q, verb, uri, header);
    OneMoreLine(q, [], "@method", verb, uri, header);
    OneMoreLine(q, ["@method"], "@target-uri", verb, uri, header);
    var two := ["@method", "@target-uri"];
    assert [] + ["@method"] == ["@method"] && ["@method"] + ["@target-uri"] == two;
    if hasBody {
      OneMoreLine(q, two, "content-digest", verb, uri, header);
      OneMoreLine(q, two + ["content-digest"], "upload-offset", verb, uri, header);
      OneMoreLine(q, two + ["content-digest"] + ["upload-offset"], "mlp-reservation", verb, uri, header);
      assert Profile(true) == two + ["content-digest"] + ["upload-offset"] + ["mlp-reservation"];
    } else {
      OneMoreLine(q, two, "mlp-reservation", verb, uri, header);
      assert Profile(false) == two + ["mlp-reservation"];
    }
  }

  lemma NothingBroken(q: Quoting, verb: string, uri: string, header: Header)
    ensures Broken(q, [], verb, uri, header) == ""
  {
  }

  /**
   A request is accepted if and only if its header parses, covers exactly the profile's components in their order, was
   made within 300 seconds, every covered header is there, and the key it names made the signature over the text
   spelled out; otherwise the first of these that fails is named.
   */
  lemma AcceptedExactlyWhen(q: Quoting, verify: (string, string, string) -> bool, verb: string, uri: string,
                            header: Header, sig: string, hasBody: bool, now: int)
    requires QuotingOk(q)
    ensures var error := Verified(q, verify, verb, uri, header, sig, hasBody, now);
            match ParseInput(header("signature-input"))
            case Err(e) => error == Some(e)
            case Ok(si) =>
              if si.components != Profile(hasBody) then error == Some(WrongComponents)
              else if !(-300 <= now - si.created <= 300) then error == Some(Stale)
              else if !AllPresent(hasBody, header) then error == Some(AbsentComponent)
              else if !verify(si.keyid, SignedText(hasBody, verb, uri, header, si.params), sig) then
                error == Some(BadSignature)
              else error == None
  {
    hide ParseInput, Base, QuotingOk, SignedText, AllPresent;
    var parsed := ParseInput(header("signature-input"));
    if parsed.Ok? && parsed.value.components == Profile(hasBody) {
      BaseIs(q, hasBody, verb, uri, header, parsed.value);
    }
  }
}
