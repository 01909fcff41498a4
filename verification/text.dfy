/** Optional values, standing for the source's `null`, `undefined` and `-1` results. */
module Options {
  datatype Option<+T> = None | Some(value: T) {
    function GetOr(default: T): T {
      if Some? then value else default
    }
  }
}

/** The string searches every stream parser of the repository is built from:
    `indexOf`, and cutting a growing buffer at each leftmost delimiter. */
module Text {
  import opened Options

  predicate OccursAt(s: string, pat: string, i: nat) {
    i + |pat| <= |s| && s[i..i + |pat|] == pat
  }

  /** `s.indexOf(pat)`, with None for -1. */
  function IndexOf(s: string, pat: string): (r: Option<nat>)
    ensures r.Some? ==> r.value + |pat| <= |s| && OccursAt(s, pat, r.value)
                        && forall j: nat | j < r.value :: !OccursAt(s, pat, j)
    ensures r.None? ==> forall j: nat :: !OccursAt(s, pat, j)
  {
    IndexFrom(s, pat, 0)
  }

  function IndexFrom(s: string, pat: string, k: nat): (r: Option<nat>)
    requires k <= |s|
    ensures r.Some? ==> k <= r.value && OccursAt(s, pat, r.value)
                        && forall j: nat | k <= j < r.value :: !OccursAt(s, pat, j)
    ensures r.None? ==> forall j: nat | k <= j :: !OccursAt(s, pat, j)
    decreases |s| - k
  {
    if OccursAt(s, pat, k) then Some(k)
    else if k == |s| then None
    else IndexFrom(s, pat, k + 1)
  }

  lemma IndexOfIs(s: string, pat: string, i: nat)
    requires OccursAt(s, pat, i)
    requires forall j: nat | j < i :: !OccursAt(s, pat, j)
    ensures IndexOf(s, pat) == Some(i)
  {
    assert IndexOf(s, pat).Some?;
    assert IndexOf(s, pat).value <= i;
  }

  lemma OccursAppend(a: string, b: string, pat: string, i: nat)
    requires i + |pat| <= |a|
    ensures OccursAt(a + b, pat, i) == OccursAt(a, pat, i)
  {
    assert (a + b)[i..i + |pat|] == a[i..i + |pat|];
  }

  lemma OccursDrop(a: string, b: string, pat: string, i: nat)
    ensures OccursAt(a + b, pat, |a| + i) == OccursAt(b, pat, i)
  {
    if i + |pat| <= |b| {
      assert (a + b)[|a| + i..|a| + i + |pat|] == b[i..i + |pat|];
    }
  }

  /** Appending text never moves a delimiter that has already been seen. */
  lemma IndexOfAppend(a: string, b: string, pat: string)
    requires IndexOf(a, pat).Some?
    ensures IndexOf(a + b, pat) == IndexOf(a, pat)
  {
    var i := IndexOf(a, pat).value;
    OccursAppend(a, b, pat, i);
    forall j: nat | j < i ensures !OccursAt(a + b, pat, j) {
      OccursAppend(a, b, pat, j);
    }
    IndexOfIs(a + b, pat, i);
  }

  /** The parts already terminated by a delimiter, and what is still waiting for one. */
  datatype Split = Split(parts: seq<string>, rest: string) {
    function Prepend(before: seq<string>): Split {
      Split(before + parts, rest)
    }

    lemma PrependNothing()
      ensures Prepend([]) == this
    {
      assert [] + parts == parts;
    }

    lemma PrependTwice(a: seq<string>, b: seq<string>)
      ensures Prepend(b).Prepend(a) == Prepend(a + b)
    {
      assert a + (b + parts) == (a + b) + parts;
    }
  }

  /** What `while ((i = buf.indexOf(sep)) !== -1) { take buf.slice(0, i); buf = buf.slice(i + sep.length) }` yields. */
  function SplitBy(s: string, sep: string): (r: Split)
    requires sep != ""
    ensures IndexOf(r.rest, sep).None?
    decreases |s|
  {
    match IndexOf(s, sep)
    case None => Split([], s)
    case Some(i) =>
      SplitBy(s[i + |sep|..], sep).Prepend([s[..i]])
  }

  /** Cutting a buffer now and the remainder plus new text later gives the same parts
      as cutting everything at once: the law behind every chunked reader. */
  lemma {:induction false} SplitAppend(a: string, b: string, sep: string)
    requires sep != ""
    ensures var now := SplitBy(a, sep);
            SplitBy(a + b, sep) == SplitBy(now.rest + b, sep).Prepend(now.parts)
    decreases |a|
  {
    hide OccursAt, SplitBy;
    if IndexOf(a, sep).None? {
      SplitNone(a, sep);
      SplitBy(a + b, sep).PrependNothing();
    } else {
      var i := IndexOf(a, sep).value;
      var a' := a[i + |sep|..];
      IndexOfAppend(a, b, sep);
      SplitSome(a, sep, i);
      SplitSome(a + b, sep, i);
      assert (a + b)[i + |sep|..] == a' + b;
      assert (a + b)[..i] == a[..i];
      SplitAppend(a', b, sep);
      var now := SplitBy(a', sep);
      SplitBy(now.rest + b, sep).PrependTwice([a[..i]], now.parts);
    }
  }

  lemma SplitNone(s: string, sep: string)
    requires sep != "" && IndexOf(s, sep).None?
    ensures SplitBy(s, sep) == Split([], s)
  {
    hide OccursAt;
  }

  lemma SplitSome(s: string, sep: string, i: nat)
    requires sep != "" && IndexOf(s, sep) == Some(i)
    ensures SplitBy(s, sep) == SplitBy(s[i + |sep|..], sep).Prepend([s[..i]])
  {
    hide OccursAt;
  }

  lemma SliceOfSlice<T>(s: seq<T>, i: nat, e: nat, j: nat, k: nat)
    requires i + k <= e <= |s| && j <= k
    ensures s[i..e][j..k] == s[i + j..i + k]
  {
    var t := s[i..e];
    assert t[j..k] == s[i + j..i + k] by {
      assert forall m | 0 <= m < k - j :: t[j..k][m] == t[j + m] == s[i + j + m];
    }
  }

  lemma SliceOfDrop<T>(s: seq<T>, k: nat, i: nat, j: nat)
    requires i <= j && k + j <= |s|
    ensures s[k..][i..j] == s[k + i..k + j]
  {
  }

  lemma DropOfTake<T>(s: seq<T>, k: nat, n: nat)
    requires k + n <= |s|
    ensures s[..k + n][k..] == s[k..][..n]
  {
  }

  function Concat(chunks: seq<string>): string {
    if chunks == [] then "" else chunks[0] + Concat(chunks[1..])
  }

  /** The text a list of terminated lines came from. */
  function Unlines(lines: seq<string>): string {
    if lines == [] then "" else lines[0] + "\n" + Unlines(lines[1..])
  }

  /** Newline-free lines survive being written out and split again. */
  lemma {:induction false} SplitUnlines(lines: seq<string>)
    requires forall l | l in lines :: '\n' !in l
    ensures SplitBy(Unlines(lines), "\n") == Split(lines, "")
  {
    if lines == [] {
      assert IndexOf("", "\n").None? by {
        assert forall j: nat :: !OccursAt("", "\n", j);
      }
    } else {
      var l := lines[0];
      var t := Unlines(lines[1..]);
      FirstNewline(l, t);
      assert (l + "\n" + t)[..|l|] == l;
      assert (l + "\n" + t)[|l| + 1..] == t;
      SplitUnlines(lines[1..]);
      assert [l] + lines[1..] == lines;
    }
  }

  lemma FirstNewline(l: string, t: string)
    requires '\n' !in l
    ensures IndexOf(l + "\n" + t, "\n") == Some(|l|)
  {
    var s := l + "\n" + t;
    assert s[|l|..|l| + 1] == "\n";
    forall j: nat | j < |l| ensures !OccursAt(s, "\n", j) {
      assert s[j..j + 1][0] == l[j];
    }
    IndexOfIs(s, "\n", |l|);
  }

  lemma NoNewline(s: string)
    ensures IndexOf(s, "\n").None? <==> '\n' !in s
  {
    forall i: nat ensures OccursAt(s, "\n", i) <==> i < |s| && s[i] == '\n' { NewlineAt(s, i); }
  }

  lemma NewlineAt(s: string, i: nat)
    ensures OccursAt(s, "\n", i) <==> i < |s| && s[i] == '\n'
  {
    if i < |s| { assert s[i..i + 1] == [s[i]]; }
  }

  // ---------- White space, as `trim` and `\s` understand it ----------

  predicate IsSpace(c: char) {
    || c == ' ' || c == '\t' || c == '\n' || c == '\r' || c == '\U{000B}' || c == '\U{000C}'
    || c == '\U{00A0}' || c == '\U{FEFF}' || c == '\U{1680}' || '\U{2000}' <= c <= '\U{200A}'
    || c == '\U{2028}' || c == '\U{2029}' || c == '\U{202F}' || c == '\U{205F}' || c == '\U{3000}'
  }

  function UpperChar(c: char): char {
    if 'a' <= c <= 'z' then 'A' + (c - 'a') else c
  }

  /** `toUpperCase()` on ASCII text. */
  function Upper(s: string): (r: string)
    ensures |r| == |s| && forall i | 0 <= i < |s| :: r[i] == UpperChar(s[i])
  {
    seq(|s|, i requires 0 <= i < |s| => UpperChar(s[i]))
  }

  function TrimStart(s: string): string {
    if s != "" && IsSpace(s[0]) then TrimStart(s[1..]) else s
  }

  function TrimEnd(s: string): string {
    if s != "" && IsSpace(s[|s| - 1]) then TrimEnd(s[..|s| - 1]) else s
  }

  function Trim(s: string): string {
    TrimEnd(TrimStart(s))
  }

  /** How long the run of other characters at the front is. */
  function WordLength(s: string): (n: nat)
    ensures n <= |s| && (s != "" && !IsSpace(s[0]) ==> 0 < n)
  {
    if s == "" || IsSpace(s[0]) then 0 else 1 + WordLength(s[1..])
  }

  /** White space as ECMAScript has it, line terminators included. */
  lemma SpacesAre(c: char)
    ensures IsSpace(c)
       <==> (c in " \t\n\U{000B}\U{000C}\r\U{00A0}\U{1680}\U{2000}\U{2001}\U{2002}\U{2003}\U{2004}\U{2005}\U{2006}"
         || c in "\U{2007}\U{2008}\U{2009}\U{200A}\U{2028}\U{2029}\U{202F}\U{205F}\U{3000}\U{FEFF}")
  {
  }

  lemma {:induction false} TrimStartSkips(before: string, text: string)
    requires (forall c | c in before :: IsSpace(c)) && (text == "" || !IsSpace(text[0]))
    ensures TrimStart(before + text) == text
  {
    if before == "" {
      assert before + text == text;
    } else {
      assert (before + text)[0] == before[0] && before[0] in before && (before + text)[1..] == before[1..] + text;
      TrimStartSkips(before[1..], text);
    }
  }

  lemma {:induction false} TrimEndSkips(text: string, after: string)
    requires (forall c | c in after :: IsSpace(c)) && (text == "" || !IsSpace(text[|text| - 1]))
    ensures TrimEnd(text + after) == text
    decreases |after|
  {
    if after == "" {
      assert text + after == text;
    } else {
      var n, s := |after| - 1, text + after;
      assert s[|s| - 1] == after[n] && after[n] in after && s[..|s| - 1] == text + after[..n];
      TrimEndSkips(text, after[..n]);
    }
  }

  /** Trimming removes white space at both ends, and nothing in between. */
  lemma TrimIs(before: string, text: string, after: string)
    requires forall c | c in before + after :: IsSpace(c)
    requires text != "" && !IsSpace(text[0]) && !IsSpace(text[|text| - 1])
    ensures Trim(before + text + after) == text
  {
    hide IsSpace;
    assert forall c | c in before :: c in before + after;
    assert forall c | c in after :: c in before + after;
    assert before + text + after == before + (text + after);
    assert (text + after)[0] == text[0] && (before + text)[|before + text| - 1] == text[|text| - 1];
    TrimStartSkips(before, text + after);
    TrimEndSkips(text, after);
    TrimEndSkips(before + text, after);
    TrimStartSkips(before, text);
  }

  lemma AllTrimmed(s: string)
    requires forall c | c in s :: IsSpace(c)
    ensures Trim(s) == ""
  {
    TrimStartSkips(s, "");
    TrimEndSkips("", s);
    assert s + "" == s && "" + s == s;
  }

  /** `s.trim().split(/\s+/)`, except that blank text has no words. */
  function Words(s: string): seq<string>
    decreases |s|
  {
    if s == "" then []
    else if IsSpace(s[0]) then Words(s[1..])
    else [s[..WordLength(s)]] + Words(s[WordLength(s)..])
  }
}
