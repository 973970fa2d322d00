/**
 The forwarding chain (server/sn/forward.go, server/sn/sn.go:121-152 and 391-428, server/sn/compose.go:196-230): what a
 domain records when it dispatches, receives and re-dispatches, and how the fulfillment sources are built.
 */
module Forwarding {
  import opened Wrappers

  type Domain = string
  type EnvelopeId = string
  type Address = string
  type Urn = string

  /** The identifying core of a dispatch. */
  datatype Attestation = Attestation(origin: Domain, id: EnvelopeId, created: int, kid: string, sig: string)

  datatype SourceEntry = SourceEntry(domain: Domain, urns: seq<Urn>, until: Option<int>)

  /** A signed envelope: its own attestation, the content it carries, its chain and its sources. */
  datatype Envelope = Envelope(own: Attestation, target: Domain, content: Address, hops: seq<Attestation>,
                               sources: seq<SourceEntry>)

  /** A row of dispatches. */
  datatype Dispatch = Dispatch(target: Domain, content: Address, created: int, kid: string, sig: string,
                               sources: seq<SourceEntry>)

  /** A delivery record. */
  datatype Received = Received(own: Attestation, content: Address, hops: seq<Attestation>, sources: seq<SourceEntry>) {
    function Chain(): seq<Attestation>
    {
      hops + [own]
    }

    /** The chain's oldest origin. */
    function RootOrigin(): Domain
    {
      if hops != [] then hops[0].origin else own.origin
    }

    predicate ChainMember(d: Domain)
    {
      exists h :: h in Chain() && h.origin == d
    }
  }

  datatype Mode = Delegated | Custody

  datatype Refusal = NoRecord | Loop | ChainFull | BadRecipients | NoContent

  const HOP_CAP := 32

  // ----- fulfillment sources -----

  function Domains(sources: seq<SourceEntry>): seq<Domain>
  {
    seq(|sources|, i requires 0 <= i < |sources| => sources[i].domain)
  }

  /** Adding an entry unless it names nobody or a domain already listed. */
  function Add(out: seq<SourceEntry>, entry: SourceEntry): seq<SourceEntry>
  {
    if entry.domain == "" || entry.domain in Domains(out) then out else out + [entry]
  }

  function AddAll(out: seq<SourceEntry>, entries: seq<SourceEntry>): seq<SourceEntry>
  {
    if entries == [] then out else Add(AddAll(out, entries[..|entries| - 1]), entries[|entries| - 1])
  }

  function ForwardSources(domain: Domain, re: Received, mode: Mode, until: Option<int>): seq<SourceEntry>
  {
    var first := if mode.Custody? then Add([], SourceEntry(domain, [], until)) else [];
    Add(AddAll(first, re.sources), SourceEntry(re.RootOrigin(), [], None))
  }

  // ----- one domain -----

  datatype Node = Node(dispatches: map<EnvelopeId, Dispatch>, received: map<(Domain, EnvelopeId), Received>,
                       contents: set<Address>)

  /** Every address of a re-dispatch shares one domain; None when the list is empty, too long or mixed. */
  function TargetOf(to: seq<Domain>): Option<Domain>
  {
    if to == [] || |to| > 128 || exists i :: 0 <= i < |to| && to[i] != to[0] then None else Some(to[0])
  }

  /** Send, for one target domain: the content is stored, signed and recorded as a dispatch. */
  function Sent(n: Node, own: Attestation, target: Domain, content: Address): (Node, Envelope)
  {
    (n.(dispatches := n.dispatches[own.id := Dispatch(target, content, own.created, own.kid, own.sig, [])],
        contents := n.contents + {content}),
     Envelope(own, target, content, [], []))
  }

  /** ProcessDispatch of an envelope whose signatures verify: recorded once; a retry changes nothing. */
  function Delivered(n: Node, domain: Domain, e: Envelope): Node
  {
    if e.target != domain || |e.hops| > HOP_CAP || (e.own.origin, e.own.id) in n.received then n
    else
      n.(received := n.received[(e.own.origin, e.own.id) := Received(e.own, e.content, e.hops, e.sources)],
         contents := n.contents + {e.content})
  }

  datatype Redispatch = Redispatch(key: (Domain, EnvelopeId), to: seq<Domain>, mode: Mode, automatic: bool,
                                   until: Option<int>)

  /**
   Forward: a received content in a fresh envelope, with the chain extended by the received envelope's attestation.
   */
  function Forwarded(n: Node, own: Attestation, r: Redispatch): (Node, Result<Envelope, Refusal>)
  {
    if r.key !in n.received then (n, Err(NoRecord))
    else
      var re := n.received[r.key];
      if r.automatic && re.ChainMember(own.origin) then (n, Err(Loop))
      else if |re.hops| >= HOP_CAP then (n, Err(ChainFull))
      else if TargetOf(r.to).None? then (n, Err(BadRecipients))
      else if re.content !in n.contents then (n, Err(NoContent))
      else
        var sources := ForwardSources(own.origin, re, r.mode, r.until);
        (n.(dispatches := n.dispatches[own.id := Dispatch(TargetOf(r.to).value, re.content, own.created, own.kid,
            own.sig,
                                                          sources)]),
         Ok(Envelope(own, TargetOf(r.to).value, re.content, re.Chain(), sources)))
  }

  /** The node's rows, updated in place. */
  class Server {
    const domain: Domain
    var dispatches: map<EnvelopeId, Dispatch>
    var received: map<(Domain, EnvelopeId), Received>
    var contents: set<Address>

    function Value(): Node
      reads this
    {
      Node(dispatches, received, contents)
    }

    constructor (domain: Domain)
      ensures Value() == Node(map[], map[], {}) && this.domain == domain
    {
      this.domain, dispatches, received, contents := domain, map[], map[], {};
    }

    method ChainMember(re: Received, d: Domain) returns (member: bool)
      ensures member <==> re.ChainMember(d)
    {
      if d == re.own.origin {
        assert re.Chain()[|re.hops|] == re.own;
        return true;
      }
      for i := 0 to |re.hops|
        invariant forall j :: 0 <= j < i ==> re.hops[j].origin != d
      {
        if re.hops[i].origin == d {
          assert re.hops[i] in re.Chain();
          return true;
        }
      }
      return false;
    }

    /** The list with its seen set, filled entry by entry. */
    method BuildSources(re: Received, mode: Mode, until: Option<int>) returns (out: seq<SourceEntry>)
      ensures out == ForwardSources(domain, re, mode, until)
    {
      out := [];
      var seen: set<Domain> := {};
      if mode.Custody? { out, seen := AddEntry(out, seen, SourceEntry(domain, [], until)); }
      ghost var first := out;
      for i := 0 to |re.sources|
        invariant forall d :: d in seen <==> d in Domains(out)
        invariant out == AddAll(first, re.sources[..i])
      {
        assert re.sources[..i + 1][..i] == re.sources[..i];
        out, seen := AddEntry(out, seen, re.sources[i]);
      }
      assert re.sources[..|re.sources|] == re.sources;
      out, seen := AddEntry(out, seen, SourceEntry(re.RootOrigin(), [], None));
    }

    method AddEntry(list: seq<SourceEntry>, seen: set<Domain>, entry: SourceEntry)
      returns (out: seq<SourceEntry>, seen': set<Domain>)
      requires forall d :: d in seen <==> d in Domains(list)
      ensures out == Add(list, entry)
      ensures forall d :: d in seen' <==> d in Domains(out)
    {
      if entry.domain == "" || entry.domain in seen { return list, seen; }
      assert Domains(list + [entry]) == Domains(list) + [entry.domain];
      return list + [entry], seen + {entry.domain};
    }

    method Forward(own: Attestation, r: Redispatch) returns (result: Result<Envelope, Refusal>)
      requires own.origin == domain
      modifies this`dispatches
      ensures (Value(), result) == Forwarded(old(Value()), own, r)
    {
      if r.key !in received { return Err(NoRecord); }
      var re := received[r.key];
      if r.automatic {
        var member := ChainMember(re, domain);
        if member { return Err(Loop); }
      }
      if |re.hops| >= HOP_CAP { return Err(ChainFull); }
      if |r.to| == 0 || |r.to| > 128 { return Err(BadRecipients); }
      for i := 0 to |r.to|
        invariant forall j :: 0 <= j < i ==> r.to[j] == r.to[0]
      {
        if r.to[i] != r.to[0] { return Err(BadRecipients); }
      }
      if re.content !in contents { return Err(NoContent); }
      var sources := BuildSources(re, r.mode, r.until);
      dispatches := dispatches[own.id := Dispatch(r.to[0], re.content, own.created, own.kid, own.sig, sources)];
      return Ok(Envelope(own, r.to[0], re.content, re.Chain(), sources));
    }
  }
}
