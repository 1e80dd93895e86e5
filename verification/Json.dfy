/** Parsed JSON, as the claims of a token carry it. */
module Json {
  import opened Wrappers

  datatype Json = Null | Bool(b: bool) | Num(n: real) | Str(s: string) | Arr(a: seq<Json>) | Obj(m: Claims)

  type Claims = map<string, Json>

  function Field(c: Claims, k: string): Option<Json> {
    if k in c then Some(c[k]) else None
  }

  function Strings(a: seq<Json>): seq<string> {
    if a == [] then [] else (if a[0].Str? then [a[0].s] else []) + Strings(a[1..])
  }

  function FromStrings(ws: seq<string>): Json {
    Arr(seq(|ws|, i requires 0 <= i < |ws| => Str(ws[i])))
  }

  lemma {:induction false} StringsBack(ws: seq<string>)
    ensures Strings(FromStrings(ws).a) == ws
  {
    if ws != [] {
      assert FromStrings(ws).a[1..] == FromStrings(ws[1..]).a;
      StringsBack(ws[1..]);
    }
  }

  /** Filtering keeps the texts of an array, in their places, and nothing else. */
  lemma {:induction false} StringsFilters(a: seq<Json>, j: Json, b: seq<Json>)
    ensures Strings(a + [j] + b) == Strings(a) + (if j.Str? then [j.s] else []) + Strings(b)
    ensures Strings([]) == []
  {
    var whole := a + [j] + b;
    if a == [] {
      assert whole[0] == j && whole[1..] == b;
    } else {
      StringsFilters(a[1..], j, b);
      assert whole[0] == a[0] && whole[1..] == a[1..] + [j] + b;
    }
  }
}
