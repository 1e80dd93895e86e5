/** JavaScript text handling: whitespace-separated words, split and join. */
module Text {

  // The characters matched by \s, which are also the ones trim() removes.
  predicate IsSpace(c: char) {
    || '\t' <= c <= '\r' || c == ' ' || c == '\U{a0}' || c == '\U{1680}' || '\U{2000}' <= c <= '\U{200a}'
    || c == '\U{2028}' || c == '\U{2029}' || c == '\U{202f}' || c == '\U{205f}' || c == '\U{3000}' || c == '\U{feff}'
  }

  // One by one.
  lemma SpacesAre(c: char)
    ensures IsSpace(c) <==>
              c in "\t\n\U{b}\U{c}\r \U{a0}\U{1680}\U{2000}\U{2001}\U{2002}\U{2003}\U{2004}\U{2005}\U{2006}\U{2007}"
                   + "\U{2008}\U{2009}\U{200a}\U{2028}\U{2029}\U{202f}\U{205f}\U{3000}\U{feff}"
  {
  }

  predicate IsWord(w: string) {
    w != "" && forall k :: 0 <= k < |w| ==> !IsSpace(w[k])
  }

  // The length of the leading word.
  function WordLength(s: string): (n: nat)
    ensures n <= |s|
    ensures forall k :: 0 <= k < n ==> !IsSpace(s[k])
    ensures n < |s| ==> IsSpace(s[n])
  {
    if s == "" || IsSpace(s[0]) then 0 else 1 + WordLength(s[1..])
  }

  // s.split(/\s+/) without its empty pieces.
  function Words(s: string): seq<string>
    decreases |s|
  {
    if s == "" then []
    else if IsSpace(s[0]) then Words(s[1..])
    else
      var n := WordLength(s);
      [s[..n]] + Words(s[n..])
  }

  lemma {:induction false} WordsAreWords(s: string)
    ensures AllWords(Words(s))
    decreases |s|
  {
    if s != "" {
      if IsSpace(s[0]) {
        WordsAreWords(s[1..]);
      } else {
        WordsAreWords(s[WordLength(s)..]);
      }
    }
  }

  function Join(ws: seq<string>, sep: char): string {
    if ws == [] then ""
    else if |ws| == 1 then ws[0]
    else ws[0] + [sep] + Join(ws[1..], sep)
  }

  function IndexOf(s: string, c: char): (n: nat)
    ensures n <= |s|
    ensures forall k :: 0 <= k < n ==> s[k] != c
    ensures n < |s| ==> s[n] == c
  {
    if s == "" || s[0] == c then 0 else 1 + IndexOf(s[1..], c)
  }

  // s.split(sep): never empty
  function Split(s: string, sep: char): (ws: seq<string>)
    ensures |ws| > 0
    decreases |s|
  {
    var n := IndexOf(s, sep);
    if n == |s| then [s] else [s[..n]] + Split(s[n + 1..], sep)
  }

  lemma SplitPiece(w: string, sep: char, rest: string)
    requires sep !in w
    ensures Split(w + [sep] + rest, sep) == [w] + Split(rest, sep)
  {
    var s := w + [sep] + rest;
    IndexOfPiece(w, sep, rest);
    assert s[..|w|] == w && s[|w| + 1..] == rest;
  }

  lemma Associative<T>(a: seq<T>, b: seq<T>, c: seq<T>)
    ensures a + b + c == a + (b + c)
  {
  }

  lemma CutAt(a: string, n: nat)
    requires n < |a|
    ensures a == a[..n] + [a[n]] + a[n + 1..]
  {
  }

  // Splitting a joined text splits its two halves.
  lemma {:induction false} SplitConcat(a: string, sep: char, b: string)
    ensures Split(a + [sep] + b, sep) == Split(a, sep) + Split(b, sep)
    decreases |a|
  {
    var n := IndexOf(a, sep);
    if n == |a| {
      SplitPiece(a, sep, b);
    } else {
      SplitConcatAt(a, sep, b, a[..n], a[n + 1..]);
    }
  }

  lemma {:induction false} SplitConcatAt(a: string, sep: char, b: string, w: string, rest: string)
    requires sep !in w && IndexOf(a, sep) == |w| < |a| && w == a[..|w|] && rest == a[|w| + 1..]
    ensures Split(a + [sep] + b, sep) == Split(a, sep) + Split(b, sep)
    decreases |a|, 0
  {
    CutAt(a, |w|);
    Associative(w + [sep], rest, [sep]);
    Associative(w + [sep], rest + [sep], b);
    SplitPiece(w, sep, rest + [sep] + b);
    SplitConcat(rest, sep, b);
    Associative([w], Split(rest, sep), Split(b, sep));
  }

  lemma {:induction false} IndexOfPiece(w: string, sep: char, rest: string)
    requires sep !in w
    ensures IndexOf(w + [sep] + rest, sep) == |w|
    ensures IndexOf(w, sep) == |w|
  {
    if w != "" {
      assert (w + [sep] + rest)[1..] == w[1..] + [sep] + rest;
      IndexOfPiece(w[1..], sep, rest);
    }
  }

  /** Splitting undoes joining when no piece contains the separator. */
  lemma {:induction false} SplitJoin(ws: seq<string>, sep: char)
    requires ws != [] && forall i :: 0 <= i < |ws| ==> sep !in ws[i]
    ensures Split(Join(ws, sep), sep) == ws
  {
    if |ws| == 1 {
      IndexOfPiece(ws[0], sep, "");
    } else {
      SplitPiece(ws[0], sep, Join(ws[1..], sep));
      SplitJoin(ws[1..], sep);
      HeadAndTail(ws);
    }
  }

  lemma InitAndLast<T>(ws: seq<T>)
    requires ws != []
    ensures ws == ws[..|ws| - 1] + [ws[|ws| - 1]]
  {
  }

  lemma HeadAndTail<T>(ws: seq<T>)
    requires ws != []
    ensures ws == [ws[0]] + ws[1..]
  {
  }

  lemma JoinFirst(w: string, sep: char, ws: seq<string>)
    requires ws != []
    ensures Join([w] + ws, sep) == w + [sep] + Join(ws, sep)
  {
    assert ([w] + ws)[1..] == ws;
  }

  // And joining undoes splitting always.
  lemma {:induction false} JoinSplit(s: string, sep: char)
    ensures Join(Split(s, sep), sep) == s
    decreases |s|
  {
    var n := IndexOf(s, sep);
    if n < |s| {
      JoinSplit(s[n + 1..], sep);
      JoinFirst(s[..n], sep, Split(s[n + 1..], sep));
      CutAt(s, n);
    }
  }

  predicate AllWords(ws: seq<string>) {
    forall i :: 0 <= i < |ws| ==> IsWord(ws[i])
  }

  lemma JoinedWordsAreText(ws: seq<string>)
    requires AllWords(ws) && ws != []
    ensures Join(ws, ' ') != ""
  {
    assert IsWord(ws[0]);
  }

  lemma {:induction false} LeadingWord(w: string, rest: string)
    requires forall k :: 0 <= k < |w| ==> !IsSpace(w[k])
    requires rest == "" || IsSpace(rest[0])
    ensures WordLength(w + rest) == |w|
  {
    if w != "" {
      assert (w + rest)[1..] == w[1..] + rest;
      LeadingWord(w[1..], rest);
    } else {
      assert w + rest == rest;
    }
  }

  lemma WordFirst(w: string, rest: string)
    requires IsWord(w) && (rest == "" || IsSpace(rest[0]))
    ensures Words(w + rest) == [w] + Words(rest)
  {
    LeadingWord(w, rest);
    assert (w + rest)[..|w|] == w && (w + rest)[|w|..] == rest;
  }

  // A leading blank is no part of a word.
  lemma BlankFirst(c: char, s: string)
    requires IsSpace(c)
    ensures Words([c] + s) == Words(s)
  {
    assert ([c] + s)[1..] == s;
  }

  /** The scope claim reads back, by word or by blank, as the list it was joined from. */
  lemma {:induction false} WordsJoin(ws: seq<string>)
    requires AllWords(ws)
    ensures Words(Join(ws, ' ')) == ws
  {
    if ws != [] {
      assert IsWord(ws[0]);
      HeadAndTail(ws);
      if |ws| == 1 {
        WordFirst(ws[0], "");
        assert ws[0] + "" == ws[0];
      } else {
        var rest := Join(ws[1..], ' ');
        WordFirst(ws[0], [' '] + rest);
        BlankFirst(' ', rest);
        Associative(ws[0], [' '], rest);
        WordsJoin(ws[1..]);
      }
    }
  }

  predicate Blank(g: string) {
    forall k :: 0 <= k < |g| ==> IsSpace(g[k])
  }

  // Words between blank gaps, of which only the first and the last may be empty.
  predicate Woven(gaps: seq<string>, ws: seq<string>) {
    && |gaps| == |ws| + 1 && AllWords(ws)
    && (forall i :: 0 <= i < |gaps| ==> Blank(gaps[i]))
    && (forall i :: 0 < i < |ws| ==> gaps[i] != "")
  }

  function Weave(gaps: seq<string>, ws: seq<string>): string
    requires |gaps| == |ws| + 1
  {
    if ws == [] then gaps[0] else gaps[0] + ws[0] + Weave(gaps[1..], ws[1..])
  }

  lemma WovenRest(gaps: seq<string>, ws: seq<string>)
    requires Woven(gaps, ws) && ws != []
    ensures Woven(gaps[1..], ws[1..]) && IsWord(ws[0])
    ensures var rest := Weave(gaps[1..], ws[1..]); rest == "" || IsSpace(rest[0])
  {
    assert Blank(gaps[1]);
    if |ws| > 1 {
      assert gaps[1] != "";
    }
  }

  lemma Tail<T>(x: T, xs: seq<T>)
    ensures ([x] + xs)[0] == x && ([x] + xs)[1..] == xs
  {
  }

  lemma SpaceWoven(c: char, gaps: seq<string>, ws: seq<string>)
    requires Woven(gaps, ws) && IsSpace(c)
    ensures var more := [[c] + gaps[0]] + gaps[1..];
            Woven(more, ws) && Weave(more, ws) == [c] + Weave(gaps, ws)
  {
    var more := [[c] + gaps[0]] + gaps[1..];
    assert Blank(gaps[0]) && more[1..] == gaps[1..];
  }

  lemma BlankWoven(gaps: seq<string>, ws: seq<string>)
    requires Woven(gaps, ws) && gaps[0] != ""
    ensures var shorter := [gaps[0][1..]] + gaps[1..];
            && Woven(shorter, ws) && shorter[0] == gaps[0][1..] && IsSpace(gaps[0][0])
            && Weave(gaps, ws) == [gaps[0][0]] + Weave(shorter, ws)
  {
    var shorter := [gaps[0][1..]] + gaps[1..];
    assert Blank(gaps[0]);
    Tail(gaps[0][1..], gaps[1..]);
    HeadAndTail(gaps[0]);
    HeadAndTail(gaps);
    SpaceWoven(gaps[0][0], shorter, ws);
  }

  lemma {:induction false} WordsOfWeave(gaps: seq<string>, ws: seq<string>)
    requires Woven(gaps, ws)
    ensures Words(Weave(gaps, ws)) == ws
    decreases |ws|, |gaps[0]|
  {
    if gaps[0] != "" {
      var shorter := [gaps[0][1..]] + gaps[1..];
      BlankWoven(gaps, ws);
      BlankFirst(gaps[0][0], Weave(shorter, ws));
      WordsOfWeave(shorter, ws);
    } else if ws != [] {
      WovenRest(gaps, ws);
      WordFirst(ws[0], Weave(gaps[1..], ws[1..]));
      WordsOfWeave(gaps[1..], ws[1..]);
      HeadAndTail(ws);
      assert "" + ws[0] == ws[0];
    }
  }

  lemma WordWoven(w: string, gaps: seq<string>, ws: seq<string>)
    requires Woven(gaps, ws) && IsWord(w) && (ws != [] ==> gaps[0] != "")
    ensures Woven([""] + gaps, [w] + ws)
  {
    assert forall i :: 0 < i < |gaps| + 1 ==> ([""] + gaps)[i] == gaps[i - 1];
    assert forall i :: 0 < i < |ws| + 1 ==> ([w] + ws)[i] == ws[i - 1];
  }

  lemma WeaveWord(w: string, gaps: seq<string>, ws: seq<string>)
    requires |gaps| == |ws| + 1
    ensures Weave([""] + gaps, [w] + ws) == w + Weave(gaps, ws)
  {
    Tail("", gaps);
    Tail(w, ws);
  }

  lemma WordsAfterWord(s: string)
    requires s != "" && !IsSpace(s[0])
    ensures var n := WordLength(s);
            && 0 < n && IsWord(s[..n]) && s == s[..n] + s[n..] && Words(s) == [s[..n]] + Words(s[n..])
            && (s[n..] != "" ==> IsSpace(s[n..][0]))
  {
  }

  lemma {:induction false} TextIsWoven(s: string) returns (gaps: seq<string>)
    ensures Woven(gaps, Words(s)) && Weave(gaps, Words(s)) == s
    ensures s != "" && IsSpace(s[0]) ==> gaps[0] != ""
    decreases |s|
  {
    if s == "" {
      gaps := [""];
    } else if IsSpace(s[0]) {
      var rest := TextIsWoven(s[1..]);
      SpaceWoven(s[0], rest, Words(s[1..]));
      gaps := [[s[0]] + rest[0]] + rest[1..];
    } else {
      var n := WordLength(s);
      WordsAfterWord(s);
      var rest := TextIsWoven(s[n..]);
      WordWoven(s[..n], rest, Words(s[n..]));
      WeaveWord(s[..n], rest, Words(s[n..]));
      gaps := [""] + rest;
    }
  }

  /** The words of a text are its maximal blocks without whitespace, in order: the text
      is these words between gaps of whitespace, and no other list of words is. */
  lemma WordsAreTheText(s: string, ws: seq<string>)
    ensures Words(s) == ws <==> exists gaps :: Woven(gaps, ws) && Weave(gaps, ws) == s
  {
    if Words(s) == ws {
      var _ := TextIsWoven(s);
    }
    if gaps :| Woven(gaps, ws) && Weave(gaps, ws) == s {
      WordsOfWeave(gaps, ws);
    }
  }
}
