/** `clean_text` (backend/models/clause_classifier.py): the normalisation a
    clause goes through before classification. Punctuation is dropped, every
    run of white space becomes one blank, letters are lowered and the ends
    are stripped, with Python's `\w` and `\s` read on ASCII text. */
module CleanText {
  import opened Seqs
  import opened Text

  /** `[\w\s]`: the characters the first substitution keeps. */
  predicate Kept(c: char) {
    IsWordChar(c) || IsSpace(c)
  }

  predicate AllKept(s: string) {
    forall i :: 0 <= i < |s| ==> Kept(s[i])
  }

  /** `re.sub(r"[^\w\s]", "", text)`. */
  function DropPunctuation(s: string): (r: string)
    ensures AllKept(r)
    ensures forall c :: c in r ==> c in s
  {
    if |s| == 0 then ""
    else (if Kept(s[0]) then [s[0]] else "") + DropPunctuation(s[1..])
  }

  /** Dropping punctuation keeps exactly the word and space characters, in
      their order. */
  lemma {:induction false} DropIsFilter(s: string)
    ensures DropPunctuation(s) == Filter(Kept, s)
  {
    if |s| > 0 {
      DropIsFilter(s[1..]);
    }
  }

  /** Text without punctuation is left alone. */
  lemma {:induction false} DropAllKept(s: string)
    requires AllKept(s)
    ensures DropPunctuation(s) == s
  {
    if |s| > 0 {
      DropAllKept(s[1..]);
      assert [s[0]] + s[1..] == s;
    }
  }

  /** The only white space is the blank. */
  predicate BlanksOnly(r: string) {
    forall i :: 0 <= i < |r| ==> IsSpace(r[i]) ==> r[i] == ' '
  }

  /** No two white-space characters in a row. */
  predicate NoSpaceRun(r: string) {
    forall i :: 0 <= i < |r| - 1 ==> !(IsSpace(r[i]) && IsSpace(r[i + 1]))
  }

  /** `re.sub(r"\s+", " ", text)`: a white-space character starts a run,
      which `TrimLeft` consumes whole and one blank replaces. */
  function Collapse(s: string): string
    decreases |s|
  {
    if |s| == 0 then ""
    else if IsSpace(s[0]) then " " + Collapse(TrimLeft(s))
    else [s[0]] + Collapse(s[1..])
  }

  /** Collapsing leaves single blanks as the only white space, keeps the
      first character (a blank for a white-space one), and brings in no
      character outside `[\w\s]`. */
  lemma {:induction false} CollapseFacts(s: string)
    ensures var r := Collapse(s);
      && (|s| > 0 ==> |r| > 0 && r[0] == (if IsSpace(s[0]) then ' ' else s[0]))
      && BlanksOnly(r) && NoSpaceRun(r)
      && (AllKept(s) ==> AllKept(r))
    decreases |s|
  {
    if |s| > 0 {
      if IsSpace(s[0]) {
        var rest := TrimLeft(s);
        CollapseFacts(rest);
        assert AllKept(s) ==> AllKept(rest) by {
          assert forall i :: 0 <= i < |rest| ==> rest[i] == s[|s| - |rest| + i];
        }
      } else {
        CollapseFacts(s[1..]);
      }
    }
  }

  /** Text whose only white space is single blanks is left alone. */
  predicate Normal(s: string) {
    && (forall i :: 0 <= i < |s| ==> IsSpace(s[i]) ==> s[i] == ' ')
    && (forall i :: 0 <= i < |s| - 1 ==> !(s[i] == ' ' && s[i + 1] == ' '))
  }

  lemma {:induction false} CollapseNormal(s: string)
    requires Normal(s)
    ensures Collapse(s) == s
    decreases |s|
  {
    if |s| > 0 {
      assert Normal(s[1..]);
      if IsSpace(s[0]) {
        assert |s| == 1 || !IsSpace(s[1]);
        assert TrimLeft(s) == s[1..];
      }
      CollapseNormal(s[1..]);
      assert [s[0]] + s[1..] == s;
    }
  }

  /** Only lower-case word characters and blanks, no two blanks in a row. */
  predicate Shaped(s: string) {
    && (forall i :: 0 <= i < |s| ==> (IsWordChar(s[i]) && !IsUpper(s[i])) || s[i] == ' ')
    && (forall i :: 0 <= i < |s| - 1 ==> !(s[i] == ' ' && s[i + 1] == ' '))
  }

  /** Stripping takes a piece of the text, which keeps its shape. */
  lemma StripKeepsShape(s: string)
    requires Shaped(s)
    ensures Shaped(Strip(s))
  {
    var start := StripInfix(s);
    var r := Strip(s);
    assert forall i :: 0 <= i < |r| ==> r[i] == s[start + i];
  }

  /* ---------- The words of a text ---------- */

  /** The characters before the first white space of `s`. */
  function WordRun(s: string): (w: string)
    ensures |w| <= |s| && w == s[..|w|]
    ensures forall k :: 0 <= k < |w| ==> !IsSpace(w[k])
    ensures |w| < |s| ==> IsSpace(s[|w|])
  {
    if |s| == 0 || IsSpace(s[0]) then "" else [s[0]] + WordRun(s[1..])
  }

  /** `s.split()`: the maximal runs of characters other than white space,
      in order. */
  function SplitWords(s: string): (ws: seq<string>)
    ensures forall i :: 0 <= i < |ws| ==> |ws[i]| > 0
    ensures forall i, k :: 0 <= i < |ws| && 0 <= k < |ws[i]| ==> !IsSpace(ws[i][k])
    ensures ws == [] <==> Blank(s)
    decreases |s|
  {
    if |s| == 0 then []
    else if IsSpace(s[0]) then
      var ws := SplitWords(s[1..]);
      assert Blank(s) <==> Blank(s[1..]) by {
        assert forall i :: 0 <= i < |s[1..]| ==> s[1..][i] == s[i + 1];
      }
      ws
    else
      var w := WordRun(s);
      [w] + SplitWords(s[|w|..])
  }

  /** Leading white space splits into no words. */
  lemma {:induction false} SplitTrimLeft(s: string)
    ensures SplitWords(TrimLeft(s)) == SplitWords(s)
    decreases |s|
  {
    if |s| > 0 && IsSpace(s[0]) {
      SplitTrimLeft(s[1..]);
    }
  }

  /** A run of word characters, then a white space or nothing, collapses
      to itself followed by the collapse of the rest. */
  lemma {:induction false} CollapseRun(w: string, rest: string)
    requires forall k :: 0 <= k < |w| ==> !IsSpace(w[k])
    ensures Collapse(w + rest) == w + Collapse(rest)
    decreases |w|
  {
    if |w| == 0 {
      EmptyConcat(rest, w);
      EmptyConcat(Collapse(rest), w);
    } else {
      ConsSplit(w, rest);
      CollapseWord(w[0], w[1..] + rest);
      CollapseRun(w[1..], rest);
      ConsSplit(w, Collapse(rest));
    }
  }

  /** One blank for a white-space head and one for a white-space tail. */
  function Pad(s: string, atStart: bool): string {
    if |s| > 0 && IsSpace(if atStart then s[0] else s[|s| - 1]) then " " else ""
  }

  /** Two or more words join with a blank after the first. */
  lemma JoinCons(w: string, ws: seq<string>)
    requires |ws| > 0
    ensures Join(" ", [w] + ws) == w + " " + Join(" ", ws)
  {
    assert ([w] + ws)[1..] == ws;
  }

  /** What collapsing `s` leaves: at most one blank for a text that is all
      white space; otherwise the words joined by single blanks, with one
      blank for leading and one for trailing white space. */
  predicate CollapsesToWords(s: string) {
    && (Blank(s) ==> Collapse(s) == (if |s| == 0 then "" else " "))
    && (!Blank(s) ==> Collapse(s) == Pad(s, true) + Join(" ", SplitWords(s)) + Pad(s, false))
  }

  /** A text that starts with white space collapses as the rest of it does,
      behind one blank. */
  lemma SpaceHead(s: string)
    requires |s| > 0 && IsSpace(s[0])
    requires CollapsesToWords(TrimLeft(s))
    ensures CollapsesToWords(s)
  {
    var t := TrimLeft(s);
    assert Collapse(s) == " " + Collapse(t);
    SplitTrimLeft(s);
    if |t| == 0 {
      SpaceOnly(s);
    } else {
      assert !Blank(s) by {
        assert !IsSpace(s[|s| - |t|]);
      }
      assert t[|t| - 1] == s[|s| - 1];
      SpaceThenWords(s, t);
    }
  }

  /** The first case of `SpaceHead`: the text is all white space. */
  lemma SpaceOnly(s: string)
    requires |s| > 0 && TrimLeft(s) == []
    requires Collapse(s) == " " + Collapse(TrimLeft(s))
    ensures CollapsesToWords(s)
  {
    assert s[..|s|] == s;
    assert Blank(s);
    EmptyConcat(" ", Collapse([]));
  }

  /** The second case of `SpaceHead`: words follow the leading white space. */
  lemma SpaceThenWords(s: string, t: string)
    requires |s| > 0 && IsSpace(s[0]) && !Blank(s)
    requires |t| > 0 && !IsSpace(t[0]) && t[|t| - 1] == s[|s| - 1]
    requires Collapse(s) == " " + Collapse(t)
    requires SplitWords(t) == SplitWords(s)
    requires CollapsesToWords(t)
    ensures CollapsesToWords(s)
  {
    var words := Join(" ", SplitWords(s));
    var tail := Pad(s, false);
    assert !Blank(t);
    assert Pad(t, true) == "" && Pad(t, false) == tail;
    assert Collapse(t) == "" + words + tail;
    assert "" + words == words;
    ConcatAssoc(" ", words, tail);
  }

  /** A text that starts with a word collapses to that word followed by the
      collapse of the rest. */
  lemma WordHead(s: string)
    requires |s| > 0 && !IsSpace(s[0])
    requires CollapsesToWords(s[|WordRun(s)|..])
    ensures CollapsesToWords(s)
  {
    var w := WordRun(s);
    var rest := s[|w|..];
    SplitAt(s, |w|);
    CollapseRun(w, rest);
    assert SplitWords(s) == [w] + SplitWords(rest);
    assert !Blank(s) by {
      assert !IsSpace(s[0]);
    }
    if |rest| == 0 {
      assert s[|s| - 1] == w[|w| - 1];
      WordAlone(s, w);
    } else {
      assert rest[|rest| - 1] == s[|s| - 1];
      WordThenRest(s, w, rest);
    }
  }

  /** The first case of `WordHead`: the text is one word. */
  lemma WordAlone(s: string, w: string)
    requires |s| > 0 && !IsSpace(s[0]) && !Blank(s)
    requires |w| > 0 && !IsSpace(s[|s| - 1])
    requires Collapse(s) == w + Collapse("")
    requires SplitWords(s) == [w] + SplitWords("")
    ensures CollapsesToWords(s)
  {
    assert Join(" ", [w]) == w;
    assert Collapse("") == "";
    EmptyConcat(w, "");
  }

  /** The second case of `WordHead`: white space follows the first word. */
  lemma WordThenRest(s: string, w: string, rest: string)
    requires |s| > 0 && !IsSpace(s[0]) && !Blank(s)
    requires |w| > 0 && |rest| > 0 && IsSpace(rest[0])
    requires rest[|rest| - 1] == s[|s| - 1]
    requires Collapse(s) == w + Collapse(rest)
    requires SplitWords(s) == [w] + SplitWords(rest)
    requires CollapsesToWords(rest)
    ensures CollapsesToWords(s)
  {
    var tail := Pad(s, false);
    assert Pad(rest, false) == tail;
    if Blank(rest) {
      assert SplitWords(rest) == [];
      assert Join(" ", [w]) == w;
      assert Collapse(s) == "" + w + tail;
    } else {
      var more := Join(" ", SplitWords(rest));
      JoinCons(w, SplitWords(rest));
      assert Collapse(rest) == " " + more + tail;
      Regroup(w, more, tail);
    }
  }

  /** The blanks around the words, put back together. */
  lemma Regroup(w: string, more: string, tail: string)
    ensures w + (" " + more + tail) == "" + (w + " " + more) + tail
  {
    ConcatAssoc(w, " " + more, tail);
    ConcatAssoc(w, " ", more);
    assert "" + (w + " " + more) == w + " " + more;
  }

  lemma {:induction false} CollapseIsWords(s: string)
    ensures CollapsesToWords(s)
    decreases |s|
  {
    if |s| > 0 {
      if IsSpace(s[0]) {
        CollapseIsWords(TrimLeft(s));
        SpaceHead(s);
      } else {
        CollapseIsWords(s[|WordRun(s)|..]);
        WordHead(s);
      }
    }
  }

  /** Words joined by single blanks start and end with a word character. */
  lemma {:induction false} JoinedEnds(ws: seq<string>)
    requires |ws| > 0
    requires forall i :: 0 <= i < |ws| ==> |ws[i]| > 0
    requires forall i, k :: 0 <= i < |ws| && 0 <= k < |ws[i]| ==> !IsSpace(ws[i][k])
    ensures var j := Join(" ", ws);
      |j| > 0 && !IsSpace(j[0]) && !IsSpace(j[|j| - 1])
  {
    if |ws| > 1 {
      JoinedEnds(ws[1..]);
      JoinCons(ws[0], ws[1..]);
      assert [ws[0]] + ws[1..] == ws;
    }
  }

  lemma TrimRightBlank(s: string)
    requires |s| > 0 && !IsSpace(s[|s| - 1])
    ensures TrimRight(s + " ") == s
  {
    assert (s + " ")[..|s|] == s;
  }

  /** One leading blank trims away. */
  lemma TrimPadded(a: string, x: string)
    requires a == "" || a == " "
    requires |x| > 0 && !IsSpace(x[0])
    ensures TrimLeft(a + x) == x
  {
    if a == " " {
      assert a == [' '];
      TrimLeftSpace(' ', x);
    } else {
      assert a + x == x;
    }
    TrimLeftNoop(x);
  }

  /** A text padded with at most one blank on each side strips back. */
  lemma StripPadded(a: string, j: string, b: string)
    requires a == "" || a == " "
    requires b == "" || b == " "
    requires |j| > 0 && !IsSpace(j[0]) && !IsSpace(j[|j| - 1])
    ensures Strip(a + j + b) == j
  {
    ConcatAssoc(a, j, b);
    TrimPadded(a, j + b);
    if b == " " {
      TrimRightBlank(j);
    } else {
      assert j + b == j;
    }
  }

  /** `re.sub(r"\s+", " ", s).strip()` is `" ".join(s.split())`. */
  lemma StripCollapseIsJoin(s: string)
    ensures Strip(Collapse(s)) == Join(" ", SplitWords(s))
  {
    CollapseIsWords(s);
    var ws := SplitWords(s);
    if Blank(s) {
      assert ws == [];
      assert Blank(Collapse(s));
    } else {
      var a, j, b := Pad(s, true), Join(" ", ws), Pad(s, false);
      assert Collapse(s) == a + j + b;
      JoinedEnds(ws);
      StripPadded(a, j, b);
    }
  }

  lemma LowerConcat(a: string, b: string)
    ensures Lower(a + b) == Lower(a) + Lower(b)
  {
  }

  lemma {:induction false} TrimLeftLower(s: string)
    ensures TrimLeft(Lower(s)) == Lower(TrimLeft(s))
    decreases |s|
  {
    if |s| > 0 && IsSpace(s[0]) {
      TrimLeftLower(s[1..]);
      LowerTail(s);
    }
  }

  /** Lowering and collapsing white space commute. */
  lemma {:induction false} CollapseLower(s: string)
    ensures Collapse(Lower(s)) == Lower(Collapse(s))
    decreases |s|
  {
    if |s| > 0 {
      if IsSpace(s[0]) {
        CollapseLower(TrimLeft(s));
        CollapseLowerSpace(s);
      } else {
        CollapseLower(s[1..]);
        CollapseLowerWord(s);
      }
    }
  }

  /** The white-space step of `CollapseLower`. */
  lemma CollapseLowerSpace(s: string)
    requires |s| > 0 && IsSpace(s[0])
    requires Collapse(Lower(TrimLeft(s))) == Lower(Collapse(TrimLeft(s)))
    ensures Collapse(Lower(s)) == Lower(Collapse(s))
  {
    var c := Collapse(TrimLeft(s));
    assert Collapse(s) == " " + c;
    TrimLeftLower(s);
    var l := Lower(s);
    assert IsSpace(l[0]);
    assert Collapse(l) == " " + Collapse(TrimLeft(l));
    LowerConcat(" ", c);
    LowerBlank();
  }

  lemma LowerBlank()
    ensures Lower(" ") == " "
  {
  }

  /** The word-character step of `CollapseLower`. */
  lemma CollapseLowerWord(s: string)
    requires |s| > 0 && !IsSpace(s[0])
    requires Collapse(Lower(s[1..])) == Lower(Collapse(s[1..]))
    ensures Collapse(Lower(s)) == Lower(Collapse(s))
  {
    LowerTail(s);
    assert Collapse(Lower(s)) == [Lower(s)[0]] + Collapse(Lower(s)[1..]);
    LowerConcat([s[0]], Collapse(s[1..]));
    assert Lower([s[0]]) == [LowerChar(s[0])];
  }

  /** The cleaning pipeline keeps the lowered words of the text without
      punctuation, one blank between each two. */
  lemma CleanWords(text: string)
    ensures Strip(Lower(Collapse(DropPunctuation(text))))
      == Join(" ", SplitWords(Lower(Filter(Kept, text))))
  {
    var kept := DropPunctuation(text);
    DropIsFilter(text);
    CollapseLower(kept);
    StripCollapseIsJoin(Lower(kept));
  }

  /** `text.lower().strip()` after the two substitutions. */
  function Clean(text: string): (r: string)
    // only lower-case word characters and blanks remain
    // and no two blanks in a row
    ensures Shaped(r)
    // and no blank at either end
    ensures |r| > 0 ==> r[0] != ' ' && r[|r| - 1] != ' '
    // the words of the text without punctuation, lowered, in order, one
    // blank between each two: `" ".join(kept.lower().split())`
    ensures r == Join(" ", SplitWords(Lower(Filter(Kept, text))))
  {
    CleanShape(text);
    CleanWords(text);
    Strip(Lower(Collapse(DropPunctuation(text))))
  }

  /** The cleaning pipeline leaves lower-case word characters and single
      blanks, with no blank at either end. */
  lemma CleanShape(text: string)
    ensures var r := Strip(Lower(Collapse(DropPunctuation(text))));
      Shaped(r) && (|r| > 0 ==> r[0] != ' ' && r[|r| - 1] != ' ')
  {
    var kept := DropPunctuation(text);
    var collapsed := Collapse(kept);
    CollapseFacts(kept);
    LowerMakesShaped(collapsed);
    StripKeepsShape(Lower(collapsed));
  }

  /** Lowering text of word characters and single blanks shapes it. */
  lemma LowerMakesShaped(c: string)
    requires AllKept(c) && BlanksOnly(c) && NoSpaceRun(c)
    ensures Shaped(Lower(c))
  {
    var lowered := Lower(c);
    assert forall i :: 0 <= i < |lowered| ==> (IsWordChar(lowered[i]) && !IsUpper(lowered[i])) || lowered[i] == ' ' by {
      forall i | 0 <= i < |lowered|
        ensures (IsWordChar(lowered[i]) && !IsUpper(lowered[i])) || lowered[i] == ' '
      {
        assert Kept(c[i]);
      }
    }
    assert forall i :: 0 <= i < |lowered| - 1 ==> !(lowered[i] == ' ' && lowered[i + 1] == ' ') by {
      forall i | 0 <= i < |lowered| - 1
        ensures !(lowered[i] == ' ' && lowered[i + 1] == ' ')
      {
        assert IsSpace(lowered[i]) <==> IsSpace(c[i]);
        assert IsSpace(lowered[i + 1]) <==> IsSpace(c[i + 1]);
      }
    }
  }

  /** Clean text holds no punctuation to drop. */
  lemma DropShaped(c: string)
    requires Shaped(c)
    ensures DropPunctuation(c) == c
  {
    DropAllKept(c);
  }

  /** Clean text holds no capital to lower. */
  lemma LowerShaped(c: string)
    requires Shaped(c)
    ensures Lower(c) == c
  {
  }

  /** Text already in the shape cleaning produces is its own cleaning. */
  lemma CleanShaped(c: string)
    requires Shaped(c)
    requires |c| > 0 ==> c[0] != ' ' && c[|c| - 1] != ' '
    ensures Clean(c) == c
  {
    DropShaped(c);
    assert Normal(c);
    CollapseNormal(c);
    LowerShaped(c);
    StripNoop(c);
  }

  /** Cleaning clean text changes nothing. */
  lemma CleanIdempotent(text: string)
    ensures Clean(Clean(text)) == Clean(text)
  {
    CleanShaped(Clean(text));
  }

  lemma DropBetweenBlanks(a: char, p: char, b: char)
    requires IsWordChar(a) && IsWordChar(b) && !Kept(p)
    ensures DropPunctuation([a, ' ', p, ' ', b]) == [a] + [' ', ' ', b]
  {
    var s := [a, ' ', p, ' ', b];
    assert s[1..] == [' ', p, ' ', b] && s[2..] == [p, ' ', b] && s[3..] == [' ', b] && s[4..] == [b];
    assert DropPunctuation([b]) == [b] by {
      assert [b][1..] == [];
    }
    assert DropPunctuation([' ', b]) == [' ', b];
    assert DropPunctuation([p, ' ', b]) == [' ', b];
    assert DropPunctuation([' ', p, ' ', b]) == [' ', ' ', b];
  }

  lemma TrimTwoBlanks(b: char)
    requires !IsSpace(b)
    ensures TrimLeft([' ', ' ', b]) == [b]
  {
    TrimLeftNoop([b]);
    TrimLeftSpace(' ', [b]);
    assert [' '] + [b] == [' ', b];
    TrimLeftSpace(' ', [' ', b]);
    assert [' '] + [' ', b] == [' ', ' ', b];
  }

  lemma CollapseWord(c: char, s: string)
    requires !IsSpace(c)
    ensures Collapse([c] + s) == [c] + Collapse(s)
  {
    assert ([c] + s)[1..] == s;
  }

  lemma CollapseSpace(c: char, s: string)
    requires IsSpace(c)
    ensures Collapse([c] + s) == [' '] + Collapse(TrimLeft([c] + s))
  {
  }

  lemma CollapseBlankRun(b: char)
    requires !IsSpace(b)
    ensures Collapse([' ', ' ', b]) == [' ', b]
  {
    TrimTwoBlanks(b);
    CollapseSpace(' ', [' ', b]);
    assert [' '] + [' ', b] == [' ', ' ', b];
    CollapseWord(b, []);
    assert [b] + [] == [b];
  }

  lemma CollapseTwoBlanks(a: char, b: char)
    requires IsWordChar(a) && IsWordChar(b)
    ensures Collapse([a] + [' ', ' ', b]) == [a] + [' ', b]
  {
    CollapseBlankRun(b);
    CollapseWord(a, [' ', ' ', b]);
  }

  lemma FinishThree(a: char, b: char)
    requires IsWordChar(a) && IsWordChar(b)
    ensures Strip(Lower([a] + [' ', b])) == [LowerChar(a), ' ', LowerChar(b)]
  {
    assert [a] + [' ', b] == [a, ' ', b];
    var t := Lower([a, ' ', b]);
    assert t == [LowerChar(a), ' ', LowerChar(b)];
    StripNoop(t);
  }

  /** Punctuation goes before white space is collapsed, so a punctuation
      mark between two blanks leaves a single blank: `"a , b"` becomes
      `"a b"`. */
  lemma PunctuationBetweenBlanks(a: char, p: char, b: char)
    requires IsWordChar(a) && IsWordChar(b) && !Kept(p)
    ensures Clean([a, ' ', p, ' ', b]) == [LowerChar(a), ' ', LowerChar(b)]
  {
    DropBetweenBlanks(a, p, b);
    CollapseTwoBlanks(a, b);
    FinishThree(a, b);
  }

  lemma PunctuationThenBlanks()
    ensures Clean("a , b") == "a b"
  {
    assert "a , b" == ['a', ' ', ',', ' ', 'b'];
    PunctuationBetweenBlanks('a', ',', 'b');
  }
}
