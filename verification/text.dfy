/** Character classes and string helpers with the meaning Python gives them
    on ASCII text: `str.isspace`/`\s`, `\w`, `str.lower`, `str.strip`,
    the `in` substring test and `str.join`. Characters outside ASCII are
    neither word nor space characters here. */
module Text {

  /** Python's `\s` / `str.isspace()` restricted to ASCII: the six classic
      white-space characters and the four separators 0x1C-0x1F. */
  predicate IsSpace(c: char) {
    c == ' ' || c == '\t' || c == '\n' || c == '\r' || c == '\U{0B}' || c == '\U{0C}'
    || ('\U{1C}' <= c <= '\U{1F}')
  }

  /** Python's `\w` restricted to ASCII: letters, digits and underscore. */
  predicate IsWordChar(c: char) {
    ('a' <= c <= 'z') || ('A' <= c <= 'Z') || ('0' <= c <= '9') || c == '_'
  }

  predicate IsUpper(c: char) {
    'A' <= c <= 'Z'
  }

  function LowerChar(c: char): (r: char)
    ensures !IsUpper(r)
    ensures IsWordChar(r) <==> IsWordChar(c)
    ensures IsSpace(r) <==> IsSpace(c)
    ensures !IsUpper(c) ==> r == c
  {
    if IsUpper(c) then (c as int + 32) as char else c
  }

  /** `s.lower()`. */
  function Lower(s: string): (r: string)
    ensures |r| == |s|
    ensures forall i :: 0 <= i < |s| ==> r[i] == LowerChar(s[i])
  {
    seq(|s|, i requires 0 <= i < |s| => LowerChar(s[i]))
  }

  /** Lowering works one character at a time. */
  lemma LowerTail(s: string)
    requires |s| > 0
    ensures Lower(s)[1..] == Lower(s[1..])
  {
  }

  lemma LowerIdempotent(s: string)
    ensures Lower(Lower(s)) == Lower(s)
  {
  }

  predicate Blank(s: string) {
    forall i :: 0 <= i < |s| ==> IsSpace(s[i])
  }

  /** `s.lstrip()`: drops the leading white space and nothing else. */
  function TrimLeft(s: string): (r: string)
    ensures |r| <= |s| && r == s[|s| - |r|..]
    ensures Blank(s[..|s| - |r|])
    ensures |r| > 0 ==> !IsSpace(r[0])
  {
    if |s| > 0 && IsSpace(s[0]) then TrimLeft(s[1..]) else s
  }

  /** A leading white-space character is dropped with the rest of the run. */
  lemma TrimLeftSpace(c: char, s: string)
    requires IsSpace(c)
    ensures TrimLeft([c] + s) == TrimLeft(s)
  {
    assert ([c] + s)[1..] == s;
  }

  /** Text that starts with no white space keeps its start. */
  lemma TrimLeftNoop(s: string)
    requires |s| == 0 || !IsSpace(s[0])
    ensures TrimLeft(s) == s
  {
  }

  /** `s.rstrip()`: drops the trailing white space and nothing else. */
  function TrimRight(s: string): (r: string)
    ensures |r| <= |s| && r == s[..|r|]
    ensures Blank(s[|r|..])
    ensures |r| > 0 ==> !IsSpace(r[|r| - 1])
  {
    if |s| > 0 && IsSpace(s[|s| - 1]) then TrimRight(s[..|s| - 1]) else s
  }

  /** `s.strip()`. */
  function Strip(s: string): (r: string)
    ensures |r| <= |s|
    ensures |r| > 0 ==> !IsSpace(r[0]) && !IsSpace(r[|r| - 1])
    ensures r == [] <==> Blank(s)
  {
    var l := TrimLeft(s);
    var r := TrimRight(l);
    assert |r| == 0 ==> Blank(s) by {
      if |r| == 0 {
        assert s == s[..|s| - |l|] + l;
        assert Blank(l[|r|..]) && l[|r|..] == l;
      }
    }
    r
  }

  /** `s.strip()` is the piece of `s` between a blank head and a blank tail. */
  lemma StripInfix(s: string) returns (i: nat)
    ensures i + |Strip(s)| <= |s| && Strip(s) == s[i..i + |Strip(s)|]
    ensures Blank(s[..i]) && Blank(s[i + |Strip(s)|..])
  {
    var l := TrimLeft(s);
    var r := TrimRight(l);
    i := |s| - |l|;
    InfixOf(s, l, r);
  }

  /** The piece `r` at the head of the tail `l` of `s`: where it sits in `s`
      and what is around it. */
  lemma InfixOf(s: string, l: string, r: string)
    requires |l| <= |s| && l == s[|s| - |l|..] && Blank(s[..|s| - |l|])
    requires |r| <= |l| && r == l[..|r|] && Blank(l[|r|..])
    ensures var i := |s| - |l|;
      r == s[i..i + |r|] && Blank(s[i + |r|..])
  {
    var i := |s| - |l|;
    assert s[i + |r|..] == l[|r|..];
  }

  /** Stripping only removes characters. */
  lemma StripChars(s: string)
    ensures forall c :: c in Strip(s) ==> c in s
  {
    var i := StripInfix(s);
    forall c | c in Strip(s) ensures c in s {
      var k :| 0 <= k < |Strip(s)| && Strip(s)[k] == c;
      assert s[i + k] == c;
    }
  }

  /** A string without leading or trailing white space strips to itself. */
  lemma StripNoop(s: string)
    requires |s| > 0 ==> !IsSpace(s[0]) && !IsSpace(s[|s| - 1])
    ensures Strip(s) == s
  {
  }

  /** Non-empty, with no white space at either end. */
  predicate Tidy(s: string) {
    s != "" && !IsSpace(s[0]) && !IsSpace(s[|s| - 1])
  }

  lemma StripIdempotent(s: string)
    ensures Strip(Strip(s)) == Strip(s)
  {
    StripNoop(Strip(s));
  }

  predicate StartsWith(s: string, w: string) {
    |w| <= |s| && s[..|w|] == w
  }

  predicate EndsWith(s: string, w: string) {
    |w| <= |s| && s[|s| - |w|..] == w
  }

  /** `w in s` on strings: `w` occurs somewhere in `s` as a contiguous piece. */
  predicate Contains(s: string, w: string)
    decreases |s|
  {
    StartsWith(s, w) || (|s| > 0 && Contains(s[1..], w))
  }

  /** `w` occurs in `s` starting at position `i`. */
  predicate OccursAt(s: string, w: string, i: int) {
    0 <= i <= |s| - |w| && s[i..i + |w|] == w
  }

  /** The scan agrees with the textbook definition of a substring. */
  lemma {:induction false} ContainsAt(s: string, w: string)
    ensures Contains(s, w) <==> exists i :: OccursAt(s, w, i)
  {
    if StartsWith(s, w) {
      assert OccursAt(s, w, 0);
    } else if |s| == 0 {
    } else {
      ContainsAt(s[1..], w);
      if Contains(s[1..], w) {
        var i :| OccursAt(s[1..], w, i);
        assert s[i + 1..i + 1 + |w|] == s[1..][i..i + |w|];
        assert OccursAt(s, w, i + 1);
      }
      if exists i :: OccursAt(s, w, i) {
        var i :| OccursAt(s, w, i);
        assert i != 0;
        assert s[1..][i - 1..i - 1 + |w|] == s[i..i + |w|];
        assert OccursAt(s[1..], w, i - 1);
      }
    }
  }

  /** Text around an occurrence does not hide it. */
  lemma ContainsInfix(a: string, w: string, b: string)
    ensures Contains(a + w + b, w)
  {
    var s := a + w + b;
    assert s[|a|..|a| + |w|] == w;
    assert OccursAt(s, w, |a|);
    ContainsAt(s, w);
  }

  /** A piece of a piece of `s` is a piece of `s`. */
  lemma ContainsTransitive(s: string, w: string, v: string)
    requires Contains(s, w) && Contains(w, v)
    ensures Contains(s, v)
  {
    ContainsAt(s, w);
    ContainsAt(w, v);
    var i :| OccursAt(s, w, i);
    var j :| OccursAt(w, v, j);
    forall k | 0 <= k < |v| ensures s[i + j + k] == v[k] {
      assert w[j + k] == v[k];
      assert s[i..i + |w|][j + k] == w[j + k];
    }
    assert OccursAt(s, v, i + j);
    ContainsAt(s, v);
  }

  lemma ConcatAssoc(a: string, b: string, c: string)
    ensures a + b + c == a + (b + c)
  {
  }

  /** `sep.join(parts)`. */
  function Join(sep: string, parts: seq<string>): (r: string)
    ensures |parts| == 1 ==> r == parts[0]
    ensures |parts| == 0 ==> r == []
  {
    if |parts| == 0 then "" else if |parts| == 1 then parts[0] else parts[0] + sep + Join(sep, parts[1..])
  }

  /** Joining one more part appends the separator and that part. */
  lemma {:induction false} JoinSnoc(sep: string, parts: seq<string>, x: string)
    requires |parts| > 0
    ensures Join(sep, parts + [x]) == Join(sep, parts) + sep + x
  {
    if |parts| == 1 {
      assert (parts + [x])[1..] == [x];
    } else {
      assert (parts + [x])[1..] == parts[1..] + [x];
      JoinSnoc(sep, parts[1..], x);
    }
  }

  /** A joined string contains none of `c` when neither the separator nor any
      part does. */
  lemma {:induction false} JoinAvoids(sep: string, parts: seq<string>, c: char)
    requires c !in sep
    requires forall i :: 0 <= i < |parts| ==> c !in parts[i]
    ensures c !in Join(sep, parts)
  {
    if |parts| > 1 {
      JoinAvoids(sep, parts[1..], c);
    }
  }

  /** The position of the first `c` in `s`, or `|s|` when there is none
      (`s.find(c)`, with `|s|` for `-1`). */
  function IndexOf(s: string, c: char): (k: nat)
    ensures k <= |s|
    ensures k < |s| ==> s[k] == c
    ensures forall j :: 0 <= j < k ==> s[j] != c
  {
    if |s| == 0 then 0 else if s[0] == c then 0 else 1 + IndexOf(s[1..], c)
  }

  lemma {:induction false} IndexOfAppend(a: string, b: string, c: char)
    requires c !in a
    ensures IndexOf(a + b, c) == |a| + IndexOf(b, c)
  {
    if |a| > 0 {
      assert (a + b)[1..] == a[1..] + b;
      IndexOfAppend(a[1..], b, c);
    } else {
      assert a + b == b;
    }
  }

  /** `s.split(" | ")` on text in which every `|` belongs to a separator. */
  function SplitOnBars(s: string): (r: seq<string>)
    ensures |r| > 0
    decreases |s|
  {
    var k := IndexOf(s, '|');
    if 1 <= k && k + 1 < |s| && s[k - 1] == ' ' && s[k + 1] == ' ' then [s[..k - 1]] + SplitOnBars(s[k + 2..])
    else [s]
  }

  /** The first `|` of `a + " | " + rest` is that of the separator when
      `a` has none. */
  lemma BarIndex(a: string, rest: string)
    requires '|' !in a
    ensures IndexOf(a + " | " + rest, '|') == |a| + 1
  {
    var sep := " | " + rest;
    assert a + " | " + rest == a + sep;
    IndexOfAppend(a, sep, '|');
    assert sep[0] == ' ' && sep[1] == '|';
  }

  /** Splitting stops at the first separator. */
  lemma SplitAtBar(a: string, rest: string)
    requires '|' !in a
    ensures SplitOnBars(a + " | " + rest) == [a] + SplitOnBars(rest)
  {
    var s := a + " | " + rest;
    BarIndex(a, rest);
    var k := |a| + 1;
    assert s[k - 1] == ' ' && s[k + 1] == ' ';
    assert s[..k - 1] == a;
    assert s[k + 2..] == rest;
  }

  /** Joining bar-free parts with `" | "` and splitting the result again
      gives back the parts. */
  lemma {:induction false} SplitJoin(parts: seq<string>)
    requires |parts| > 0
    requires forall i :: 0 <= i < |parts| ==> '|' !in parts[i]
    ensures SplitOnBars(Join(" | ", parts)) == parts
  {
    if |parts| == 1 {
      assert IndexOf(parts[0], '|') == |parts[0]|;
    } else {
      var tail := parts[1..];
      var rest := Join(" | ", tail);
      var joined := Join(" | ", parts);
      assert joined == parts[0] + " | " + rest;
      SplitAtBar(parts[0], rest);
      assert SplitOnBars(joined) == [parts[0]] + SplitOnBars(rest);
      assert forall i :: 0 <= i < |tail| ==> '|' !in tail[i];
      SplitJoin(tail);
      assert SplitOnBars(rest) == tail;
      assert [parts[0]] + tail == parts;
    }
  }

  /** `s.replace(c, "")` for a one-character pattern. */
  function RemoveChar(s: string, c: char): (r: string)
    ensures c !in r
    ensures |r| <= |s|
    ensures forall x :: x in r <==> x in s && x != c
  {
    if |s| == 0 then "" else (if s[0] == c then "" else [s[0]]) + RemoveChar(s[1..], c)
  }

  lemma {:induction false} RemoveCharAbsent(s: string, c: char)
    requires c !in s
    ensures RemoveChar(s, c) == s
  {
    if |s| > 0 {
      RemoveCharAbsent(s[1..], c);
    }
  }
}
