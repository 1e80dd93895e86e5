/** The cache key of a client and a scope list: order of the scopes does not matter,
    anything else does. */
module CacheKey {
  import opened Text

  // Array.sort() on strings: by code unit, shorter first.
  predicate LexLe(a: string, b: string) {
    if a == "" then true
    else if b == "" then false
    else a[0] < b[0] || (a[0] == b[0] && LexLe(a[1..], b[1..]))
  }

  lemma {:induction false} LexTotal(a: string, b: string)
    ensures LexLe(a, b) || LexLe(b, a)
  {
    if a != "" && b != "" && a[0] == b[0] {
      LexTotal(a[1..], b[1..]);
    }
  }

  lemma {:induction false} LexAntisymmetric(a: string, b: string)
    requires LexLe(a, b) && LexLe(b, a)
    ensures a == b
  {
    if a != "" && b != "" {
      LexAntisymmetric(a[1..], b[1..]);
      assert a == [a[0]] + a[1..] && b == [b[0]] + b[1..];
    }
  }

  lemma {:induction false} LexTransitive(a: string, b: string, c: string)
    requires LexLe(a, b) && LexLe(b, c)
    ensures LexLe(a, c)
  {
    if a != "" && b != "" && c != "" && a[0] == b[0] == c[0] {
      LexTransitive(a[1..], b[1..], c[1..]);
    }
  }

  function Insert(w: string, ws: seq<string>): seq<string> {
    if ws == [] || LexLe(w, ws[0]) then [w] + ws else [ws[0]] + Insert(w, ws[1..])
  }

  function Sort(ws: seq<string>): seq<string> {
    if ws == [] then [] else Insert(ws[0], Sort(ws[1..]))
  }

  predicate Ordered(ws: seq<string>) {
    forall i, j | 0 <= i < j < |ws| :: LexLe(ws[i], ws[j])
  }

  lemma {:induction false} InsertOrders(w: string, ws: seq<string>)
    requires Ordered(ws)
    ensures multiset(Insert(w, ws)) == multiset(ws) + multiset{w}
    ensures Ordered(Insert(w, ws))
  {
    if ws != [] {
      assert ws == [ws[0]] + ws[1..];
      if LexLe(w, ws[0]) {
        forall j | 0 <= j < |ws|
          ensures LexLe(w, ws[j])
        {
          if j > 0 {
            LexTransitive(w, ws[0], ws[j]);
          }
        }
      } else {
        LexTotal(w, ws[0]);
        var rest := Insert(w, ws[1..]);
        InsertOrders(w, ws[1..]);
        forall j | 0 <= j < |rest|
          ensures LexLe(ws[0], rest[j])
        {
          assert rest[j] in multiset(rest);
          assert rest[j] == w || rest[j] in ws[1..];
        }
      }
    }
  }

  lemma {:induction false} SortSorts(ws: seq<string>)
    ensures multiset(Sort(ws)) == multiset(ws) && Ordered(Sort(ws))
  {
    if ws != [] {
      SortSorts(ws[1..]);
      InsertOrders(ws[0], Sort(ws[1..]));
      assert ws == [ws[0]] + ws[1..];
    }
  }

  lemma HeadIsLeast(a: seq<string>, w: string)
    requires Ordered(a) && w in a
    ensures LexLe(a[0], w)
  {
    var i :| 0 <= i < |a| && a[i] == w;
    if i == 0 {
      LexTotal(w, w);
    }
  }

  lemma TailBag(a: seq<string>)
    requires a != []
    ensures multiset(a[1..]) == multiset(a) - multiset{a[0]}
  {
    assert a == [a[0]] + a[1..];
  }

  lemma {:induction false} OrderedUnique(a: seq<string>, b: seq<string>)
    requires Ordered(a) && Ordered(b) && multiset(a) == multiset(b)
    ensures a == b
  {
    assert |a| == |multiset(a)| == |multiset(b)| == |b|;
    if a != [] {
      assert a[0] in multiset(a) && b[0] in multiset(b);
      HeadIsLeast(a, b[0]);
      HeadIsLeast(b, a[0]);
      LexAntisymmetric(a[0], b[0]);
      TailBag(a);
      TailBag(b);
      OrderedUnique(a[1..], b[1..]);
      assert a == [a[0]] + a[1..] && b == [b[0]] + b[1..];
    }
  }

  /** Sorting is canonical: it forgets the order and nothing else. */
  lemma SortCanonical(a: seq<string>, b: seq<string>)
    ensures Sort(a) == Sort(b) <==> multiset(a) == multiset(b)
  {
    SortSorts(a);
    SortSorts(b);
    if multiset(a) == multiset(b) {
      OrderedUnique(Sort(a), Sort(b));
    }
  }

  // Non-empty, and without the separator.
  predicate Plain(scopes: seq<string>) {
    forall s :: s in scopes ==> s != "" && ',' !in s
  }

  lemma JoinInjective(a: seq<string>, b: seq<string>)
    requires Plain(a) && Plain(b)
    ensures Join(a, ',') == Join(b, ',') <==> a == b
  {
    if a != [] && b != [] {
      SplitJoin(a, ',');
      SplitJoin(b, ',');
    } else {
      assert a != [] ==> a[0] in a;
      assert b != [] ==> b[0] in b;
    }
  }

  function Digest(hash: string -> string, scopes: seq<string>): string {
    hash(Join(Sort(scopes), ','))
  }

  function Key(hash: string -> string, client: string, scopes: seq<string>): string {
    "m2m:" + client + ":" + Digest(hash, scopes)
  }

  lemma SortKeepsPlain(scopes: seq<string>)
    requires Plain(scopes)
    ensures Plain(Sort(scopes))
  {
    SortSorts(scopes);
    forall s | s in Sort(scopes)
      ensures s in scopes
    {
      assert s in multiset(Sort(scopes));
    }
  }

  lemma SameTail(a: string, b: string, x: string, y: string)
    requires |x| == |y|
    ensures a + x == b + y <==> a == b && x == y
  {
    if a + x == b + y {
      assert |a| == |b|;
      assert (a + x)[..|a|] == a && (b + y)[..|b|] == b;
      assert (a + x)[|a|..] == x && (b + y)[|b|..] == y;
    }
  }

  // The texts between the commas, which is all the key keeps of a sorted list.
  function Pieces(ws: seq<string>): seq<string> {
    if ws == [] then [""] else if |ws| == 1 then Split(ws[0], ',') else Split(ws[0], ',') + Pieces(ws[1..])
  }

  // The lists that the key does not tell apart.
  predicate Alike(a: seq<string>, b: seq<string>) {
    Pieces(Sort(a)) == Pieces(Sort(b))
  }

  lemma {:induction false} SplitOfJoin(ws: seq<string>)
    ensures Split(Join(ws, ','), ',') == Pieces(ws)
  {
    if |ws| > 1 {
      SplitConcat(ws[0], ',', Join(ws[1..], ','));
      SplitOfJoin(ws[1..]);
    }
  }

  lemma AlikeExactly(a: seq<string>, b: seq<string>)
    ensures Alike(a, b) <==> Join(Sort(a), ',') == Join(Sort(b), ',')
  {
    SplitOfJoin(Sort(a));
    SplitOfJoin(Sort(b));
    JoinSplit(Join(Sort(a), ','), ',');
    JoinSplit(Join(Sort(b), ','), ',');
  }

  /** Scopes that are non-empty and without commas are alike exactly as permutations. */
  lemma PlainAlike(a: seq<string>, b: seq<string>)
    requires Plain(a) && Plain(b)
    ensures Alike(a, b) <==> multiset(a) == multiset(b)
  {
    AlikeExactly(a, b);
    SortKeepsPlain(a);
    SortKeepsPlain(b);
    JoinInjective(Sort(a), Sort(b));
    SortCanonical(a, b);
  }

  /** Other lists can meet: a scope with a comma counts as two. */
  lemma CommasCollide(hash: string -> string, client: string)
    ensures Key(hash, client, ["a,b"]) == Key(hash, client, ["a", "b"])
    ensures multiset(["a,b"]) != multiset(["a", "b"])
  {
    assert LexLe("a", "b");
    assert Sort(["b"]) == ["b"] && Sort(["a", "b"]) == ["a", "b"];
    assert Join(["a", "b"], ',') == "a,b";
    assert |multiset(["a,b"])| == 1 && |multiset(["a", "b"])| == 2;
  }

  /** Two requests share a key exactly when they name the same client and scope lists
      that agree, sorted, between the commas, for digests of one length that do not
      collide on them; so, for scopes without commas, the same scopes in some order. */
  lemma KeyExact(hash: string -> string, client: string, scopes: seq<string>, client': string, scopes': seq<string>)
    requires |Digest(hash, scopes)| == |Digest(hash, scopes')|
    requires Digest(hash, scopes) == Digest(hash, scopes') ==> Join(Sort(scopes), ',') == Join(Sort(scopes'), ',')
    ensures Key(hash, client, scopes) == Key(hash, client', scopes') <==> client == client' && Alike(scopes, scopes')
    ensures Plain(scopes) && Plain(scopes') ==> (Alike(scopes, scopes') <==> multiset(scopes) == multiset(scopes'))
  {
    var d, d' := Digest(hash, scopes), Digest(hash, scopes');
    SameTail("m2m:" + client + ":", "m2m:" + client' + ":", d, d');
    SameTail("m2m:" + client, "m2m:" + client', ":", ":");
    assert ("m2m:" + client)[4..] == client && ("m2m:" + client')[4..] == client';
    AlikeExactly(scopes, scopes');
    if Plain(scopes) && Plain(scopes') {
      PlainAlike(scopes, scopes');
    }
  }
}
