/** The RFC 8693 `act` claim: written by the minter, read back by the broker on
    re-entry and by the receiving service. */
module ActorChain {
  import opened Wrappers
  import opened Json

  // The outermost actor first; `act` is the hop before it.
  datatype Chain = Chain(sub: string, act: Option<Chain>)

  function Compose(actor: string, previous: Option<Chain>): Chain {
    Chain(actor, previous)
  }

  // How a chain is serialized: no `act` member at the innermost hop.
  function ToJson(c: Chain): Json {
    Obj(map["sub" := Str(c.sub)] + if c.act.Some? then map["act" := ToJson(c.act.value)] else map[])
  }

  // The broker's reader (re-entry).
  function BuildChain(node: Json): Option<Chain> {
    if !node.Obj? then None
    else
      var m := node.m;
      if "sub" !in m || !m["sub"].Str? || m["sub"].s == "" then None
      else Some(Chain(m["sub"].s, if "act" in m then BuildChain(m["act"]) else None))
  }

  function PreviousChain(claims: Claims): Option<Chain> {
    if "act" in claims then BuildChain(claims["act"]) else None
  }

  // The receiver's reader: a missing or malformed outermost `act` is no chain.
  function ReadNode(node: Json): Option<Chain>
    requires node.Obj?
  {
    var m := node.m;
    if "sub" !in m || !m["sub"].Str? || m["sub"].s == "" then None
    else if "act" in m && m["act"].Obj? then Some(Chain(m["sub"].s, ReadNode(m["act"])))
    else Some(Chain(m["sub"].s, None))
  }

  function ExtractActorChain(claims: Claims): Option<Chain> {
    if "act" in claims && claims["act"].Obj? then ReadNode(claims["act"]) else None
  }

  lemma {:induction false} NodesAgree(node: Json)
    requires node.Obj?
    ensures ReadNode(node) == BuildChain(node)
  {
    if "act" in node.m && node.m["act"].Obj? {
      NodesAgree(node.m["act"]);
    }
  }

  /** Broker and receiver read every claim set alike, well-formed or not. */
  lemma ReadersAgree(claims: Claims)
    ensures ExtractActorChain(claims) == PreviousChain(claims)
  {
    if "act" in claims && claims["act"].Obj? {
      NodesAgree(claims["act"]);
    }
  }

  // ---------- Flattening ----------

  // Outermost first.
  function Subs(c: Option<Chain>): seq<string> {
    if c.None? then [] else [c.value.sub] + Subs(c.value.act)
  }

  function Reverse(ws: seq<string>): seq<string> {
    if ws == [] then [] else Reverse(ws[1..]) + [ws[0]]
  }

  predicate Named(c: Option<Chain>) {
    c.None? || (c.value.sub != "" && Named(c.value.act))
  }

  /** What the readers return never has an empty name. */
  lemma {:induction false} ReadChainsAreNamed(node: Json)
    ensures Named(BuildChain(node))
  {
    if node.Obj? && "act" in node.m {
      ReadChainsAreNamed(node.m["act"]);
    }
  }

  // The longest prefix of a chain, from the outside in, without an empty name.
  function NamedPrefix(c: Option<Chain>): Option<Chain> {
    if c.None? || c.value.sub == "" then None
    else Some(Chain(c.value.sub, NamedPrefix(c.value.act)))
  }

  /** Reading back a written chain cuts it at the first empty name. */
  lemma {:induction false} ReadBack(c: Chain)
    ensures BuildChain(ToJson(c)) == NamedPrefix(Some(c))
  {
    if c.act.Some? {
      ReadBack(c.act.value);
    }
  }

  lemma {:induction false} NamedPrefixWhole(c: Option<Chain>)
    ensures NamedPrefix(c) == c <==> Named(c)
  {
    if c.Some? && c.value.sub != "" {
      NamedPrefixWhole(c.value.act);
    }
  }

  lemma ReadBackWhole(c: Chain)
    ensures BuildChain(ToJson(c)) == Some(c) <==> Named(Some(c))
  {
    ReadBack(c);
    NamedPrefixWhole(Some(c));
  }

  method ActorChainAsString(chain: Option<Chain>) returns (names: seq<string>)
    ensures names == Reverse(Subs(chain))
  {
    if chain.None? {
      return [];
    }
    var out := [];
    var node := chain;
    while node.Some?
      invariant out + Subs(node) == Subs(chain)
      decreases node
    {
      out := out + [node.value.sub];
      node := node.value.act;
    }
    assert out == Subs(chain);
    names := Reverse(out);
  }

  method ChainDepth(chain: Option<Chain>) returns (depth: nat)
    ensures depth == |Subs(chain)|
    ensures depth == 0 <==> chain.None?
  {
    if chain.None? {
      return 0;
    }
    depth := 0;
    var node := chain;
    while node.Some?
      invariant depth + |Subs(node)| == |Subs(chain)|
      decreases node
    {
      depth := depth + 1;
      node := node.value.act;
    }
  }
}
