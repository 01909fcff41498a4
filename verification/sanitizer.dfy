/** The leak-tag stream sanitizer of apps/web/lib/sanitize-stream.js. */
module Sanitizer {
  import opened Options
  import opened Text

  // ---------- The grammar of OPEN_PATTERN ----------

  predicate IsWordOrDash(c: char) {
    'a' <= c <= 'z' || 'A' <= c <= 'Z' || '0' <= c <= '9' || c == '_' || c == '-'
  }

  const NAMESPACE := "antml:"

  predicate IsLeakName(name: string) {
    || name == "ip_reminder"
    || name == "system-reminder"
    || (|NAMESPACE| < |name| && NAMESPACE <= name
        && forall k | |NAMESPACE| <= k < |name| :: IsWordOrDash(name[k]))
  }

  /** `s[i..e]` is an open leak tag. */
  predicate OpenTagAt(s: string, i: nat, e: nat) {
    i + 2 <= e <= |s| && s[i] == '<' && s[e - 1] == '>' && IsLeakName(s[i + 1..e - 1])
  }

  datatype Tag = Tag(start: nat, end: nat)

  /** No leak name contains an angle bracket, so an open tag holds exactly one `<`, its first
      character, and exactly one `>`, its last. */
  lemma TagHasNoInnerBracket(s: string, i: nat, e: nat, k: nat)
    requires OpenTagAt(s, i, e) && i < k < e - 1
    ensures s[k] != '<' && s[k] != '>'
  {
    var name := s[i + 1..e - 1];
    assert name[k - i - 1] == s[k];
    assert forall j | 0 <= j < |NAMESPACE| && NAMESPACE <= name :: name[j] == NAMESPACE[j];
  }

  /** The only place a tag starting at `i` can end is the first `>` after it. */
  lemma TagEndIsUnique(s: string, i: nat, e: nat, f: nat)
    requires OpenTagAt(s, i, e) && OpenTagAt(s, i, f)
    ensures e == f
  {
    if e < f { TagHasNoInnerBracket(s, i, f, e - 1); }
    if f < e { TagHasNoInnerBracket(s, i, e, f - 1); }
  }

  /** `buffer.match(OPEN_PATTERN)`: the leftmost open tag. */
  function FindOpen(s: string): (r: Option<Tag>)
    ensures r.Some? ==> r.value.start + 2 <= r.value.end <= |s| && OpenTagAt(s, r.value.start, r.value.end)
                        && forall i: nat, e: nat | OpenTagAt(s, i, e) :: r.value.start <= i
    ensures r.None? ==> forall i: nat, e: nat :: !OpenTagAt(s, i, e)
  {
    FindOpenFrom(s, 0)
  }

  function FindOpenFrom(s: string, k: nat): (r: Option<Tag>)
    requires k <= |s|
    ensures r.Some? ==> OpenTagAt(s, r.value.start, r.value.end)
                        && forall i: nat, e: nat | k <= i && OpenTagAt(s, i, e) :: r.value.start <= i
    ensures r.None? ==> forall i: nat, e: nat | k <= i :: !OpenTagAt(s, i, e)
    decreases |s| - k
  {
    if k == |s| then None
    else match CloseBracket(s, k)
      case Some(j) => if OpenTagAt(s, k, j + 1) then Some(Tag(k, j + 1)) else NotHere(s, k, j); FindOpenFrom(s, k + 1)
      case None => FindOpenFrom(s, k + 1)
  }

  /** The first `>` at or after `k`. */
  function CloseBracket(s: string, k: nat): (r: Option<nat>)
    ensures r.Some? ==> k <= r.value < |s| && s[r.value] == '>' && forall j | k <= j < r.value :: s[j] != '>'
    ensures r.None? ==> forall j | k <= j < |s| :: s[j] != '>'
    decreases |s| - k
  {
    if |s| <= k then None else if s[k] == '>' then Some(k) else CloseBracket(s, k + 1)
  }

  lemma NotHere(s: string, k: nat, j: nat)
    requires k <= j < |s| && s[j] == '>' && forall i | k <= i < j :: s[i] != '>'
    requires !OpenTagAt(s, k, j + 1)
    ensures forall e: nat :: !OpenTagAt(s, k, e)
  {
    forall e: nat | OpenTagAt(s, k, e) ensures false {
      if j < e - 1 { TagHasNoInnerBracket(s, k, e, j); }
    }
  }

  /** `buffer.lastIndexOf("<")`. */
  function LastBracket(s: string): (r: Option<nat>)
    ensures r.Some? ==> r.value < |s| && s[r.value] == '<' && forall j | r.value < j < |s| :: s[j] != '<'
    ensures r.None? ==> forall j | 0 <= j < |s| :: s[j] != '<'
  {
    if s == "" then None
    else if s[|s| - 1] == '<' then Some(|s| - 1)
    else LastBracket(s[..|s| - 1])
  }

  // ---------- The machine ----------

  const HOLD_LIMIT := 32

  type ClosingTag = c: string | c != "" witness "</ip_reminder>"

  function ClosingTagOf(name: string): ClosingTag {
    "</" + name + ">"
  }

  /** What one run of the loop leaves behind: the text emitted, the buffer kept, the mode. */
  datatype Scanned = Scanned(out: string, buffer: string, suppressing: Option<ClosingTag>) {
    function After(before: string): Scanned {
      this.(out := before + out)
    }

    /** What `flush` adds at the end of the stream. */
    function Tail(): string {
      if suppressing.Some? then "" else buffer
    }

    function Total(): string {
      out + Tail()
    }
  }

  /** How much of a buffer without an open tag may be emitted now. */
  function SafeLength(s: string): (n: nat)
    ensures n <= |s|
    ensures |s| - n < HOLD_LIMIT
    ensures n < |s| ==> s[n] == '<' && forall j | n < j < |s| :: s[j] != '<'
    ensures n == |s| ==> forall j | 0 <= j < |s| && |s| - j < HOLD_LIMIT :: s[j] != '<'
  {
    match LastBracket(s)
    case Some(lt) => if |s| - lt < HOLD_LIMIT then lt else |s|
    case None => |s|
  }

  /** The `while` loop of `process`, as a function of the buffer and mode it starts from. */
  function Scan(buffer: string, suppressing: Option<ClosingTag>): Scanned
    decreases |buffer|
  {
    if buffer == "" then Scanned("", "", suppressing)
    else match suppressing
      case Some(close) => (
        match IndexOf(buffer, close)
        case None => Scanned("", buffer, suppressing)
        case Some(i) => Scan(buffer[i + |close|..], None))
      case None => (
        match FindOpen(buffer)
        case Some(t) =>
          Scan(buffer[t.end..], Some(ClosingTagOf(buffer[t.start + 1..t.end - 1]))).After(buffer[..t.start])
        case None =>
          var n := SafeLength(buffer);
          Scanned(buffer[..n], buffer[n..], None))
  }

  /** Every open tag that starts a suppression is at most HOLD_LIMIT characters long. */
  predicate OpenTagsFit(text: string, suppressing: Option<ClosingTag>)
    decreases |text|
  {
    if text == "" then true
    else match suppressing
      case Some(close) => (
        match IndexOf(text, close)
        case None => true
        case Some(i) => OpenTagsFit(text[i + |close|..], None))
      case None => (
        match FindOpen(text)
        case Some(t) =>
          t.end - t.start <= HOLD_LIMIT
          && OpenTagsFit(text[t.end..], Some(ClosingTagOf(text[t.start + 1..t.end - 1])))
        case None => true)
  }

  /** `makeStreamSanitizer()`. */
  class StreamSanitizer {
    var buffer: string
    var suppressing: Option<ClosingTag>

    constructor ()
      ensures buffer == "" && suppressing == None
    {
      buffer := "";
      suppressing := None;
    }

    method Process(chunk: Option<string>) returns (out: string)
      modifies this
      ensures chunk.None? ==> out == "" && buffer == old(buffer) && suppressing == old(suppressing)
      ensures chunk.Some? ==> Scan(old(buffer) + chunk.value, old(suppressing)) == Scanned(out, buffer, suppressing)
    {
      hide OpenTagAt, OccursAt, Scan;
      if chunk.None? {
        return "";
      }
      buffer := buffer + chunk.value;
      out := "";
      while 0 < |buffer|
        invariant Scan(old(buffer) + chunk.value, old(suppressing)) == Scan(buffer, suppressing).After(out)
        decreases |buffer|
      {
        if suppressing.Some? {
          var idx := IndexOf(buffer, suppressing.value);
          if idx.None? {
            ScanNoClose(buffer, suppressing.value);
            return;
          }
          ScanAtClose(buffer, suppressing.value, idx.value);
          buffer := buffer[idx.value + |suppressing.value|..];
          suppressing := None;
          continue;
        }
        var m := FindOpen(buffer);
        if m.Some? {
          var name := buffer[m.value.start + 1..m.value.end - 1];
          ScanAtTag(buffer, m.value);
          AfterTwice(Scan(buffer[m.value.end..], Some(ClosingTagOf(name))), out, buffer[..m.value.start]);
          out := out + buffer[..m.value.start];
          buffer := buffer[m.value.end..];
          suppressing := Some(ClosingTagOf(name));
          continue;
        }
        ScanNoTag(buffer);
        var lastLt := LastBracket(buffer);
        if lastLt.Some? && |buffer| - lastLt.value < HOLD_LIMIT {
          out := out + buffer[..lastLt.value];
          buffer := buffer[lastLt.value..];
          return;
        }
        assert buffer[..|buffer|] == buffer;
        out := out + buffer;
        buffer := "";
        assert out + "" == out;
        return;
      }
      ScanEmpty(suppressing);
      assert out + "" == out;
    }

    method Flush() returns (out: string)
      modifies this
      ensures out == Scanned("", old(buffer), old(suppressing)).Tail()
      ensures buffer == "" && suppressing == None
    {
      out := if suppressing.Some? then "" else buffer;
      buffer := "";
      suppressing := None;
    }
  }

  /** `sanitizeText`: a fresh sanitizer, one `process`, one `flush`. */
  method SanitizeText(text: Option<string>) returns (clean: string)
    ensures clean == if text.Some? then Clean(text.value) else ""
  {
    var s := new StreamSanitizer();
    var head := s.Process(text);
    var tail := s.Flush();
    clean := head + tail;
    if text.Some? {
      assert "" + text.value == text.value;
      ScanIsClean(text.value, None);
    }
  }

  lemma ScanEmpty(suppressing: Option<ClosingTag>)
    ensures Scan("", suppressing) == Scanned("", "", suppressing)
  {
  }

  lemma ScanNoClose(s: string, close: ClosingTag)
    requires IndexOf(s, close).None?
    ensures Scan(s, Some(close)) == Scanned("", s, Some(close))
  {
    hide OccursAt;
  }

  lemma ScanAtClose(s: string, close: ClosingTag, i: nat)
    requires IndexOf(s, close) == Some(i)
    ensures Scan(s, Some(close)) == Scan(s[i + |close|..], None)
  {
    hide OpenTagAt, OccursAt;
  }

  lemma ScanAtTag(s: string, t: Tag)
    requires FindOpen(s) == Some(t)
    ensures s != ""
    ensures Scan(s, None) == Scan(s[t.end..], Some(ClosingTagOf(s[t.start + 1..t.end - 1]))).After(s[..t.start])
  {
    hide OccursAt;
  }

  lemma ScanNoTag(s: string)
    requires FindOpen(s).None?
    ensures var n := SafeLength(s);
            Scan(s, None) == Scanned(s[..n], s[n..], None)
  {
    hide OpenTagAt, OccursAt;
  }

  lemma AfterTwice(s: Scanned, a: string, b: string)
    ensures s.After(b).After(a) == s.After(a + b)
  {
    assert a + (b + s.out) == (a + b) + s.out;
  }

  // ---------- Meaning ----------

  /** The whole-text specification: keep the text up to the leftmost open tag and drop through the
      first matching close tag, or to the end when there is none. */
  function Clean(text: string): string
    decreases |text|, 1
  {
    match FindOpen(text)
    case None => text
    case Some(t) =>
      text[..t.start] + CleanAfterClose(text[t.end..], ClosingTagOf(text[t.start + 1..t.end - 1]))
  }

  function CleanAfterClose(text: string, close: ClosingTag): string
    decreases |text|, 0
  {
    match IndexOf(text, close)
    case None => ""
    case Some(i) => Clean(text[i + |close|..])
  }

  lemma CleanAtTag(text: string, t: Tag)
    requires FindOpen(text) == Some(t)
    ensures Clean(text) == text[..t.start] + CleanAfterClose(text[t.end..], ClosingTagOf(text[t.start + 1..t.end - 1]))
  {
    hide OpenTagAt, OccursAt;
  }

  lemma CleanAtClose(text: string, close: ClosingTag, i: nat)
    requires IndexOf(text, close) == Some(i)
    ensures CleanAfterClose(text, close) == Clean(text[i + |close|..])
  {
    hide OpenTagAt, OccursAt;
  }

  lemma CleanAtEnd(text: string, suppressing: Option<ClosingTag>)
    ensures FindOpen(text).None? ==> Clean(text) == text
    ensures suppressing.Some? && IndexOf(text, suppressing.value).None? ==>
        CleanAfterClose(text, suppressing.value) == ""
  {
    hide OpenTagAt, OccursAt;
  }

  lemma TotalAtTag(text: string, t: Tag)
    requires FindOpen(text) == Some(t)
    ensures Scan(text, None).Total()
        == text[..t.start] + Scan(text[t.end..], Some(ClosingTagOf(text[t.start + 1..t.end - 1]))).Total()
  {
    hide FindOpen, Scan, ClosingTagOf;
    ScanAtTag(text, t);
    var rest := Scan(text[t.end..], Some(ClosingTagOf(text[t.start + 1..t.end - 1])));
    assert (text[..t.start] + rest.out) + rest.Tail() == text[..t.start] + (rest.out + rest.Tail());
  }

  lemma TotalAtEnd(text: string, suppressing: Option<ClosingTag>)
    requires if suppressing.Some? then IndexOf(text, suppressing.value).None? else FindOpen(text).None?
    ensures Scan(text, suppressing).Total() == if suppressing.Some? then "" else text
  {
    hide FindOpen, Scan, SafeLength, IndexOf;
    if suppressing.Some? {
      ScanNoClose(text, suppressing.value);
    } else {
      ScanNoTag(text);
      var n := SafeLength(text);
      assert text[..n] + text[n..] == text;
    }
  }

  /** Running the machine on a text and flushing it yields exactly the whole-text specification. */
  lemma {:induction false} ScanIsClean(text: string, suppressing: Option<ClosingTag>)
    ensures Scan(text, suppressing).Total()
         == if suppressing.Some? then CleanAfterClose(text, suppressing.value) else Clean(text)
    decreases |text|
  {
    hide FindOpen, IndexOf, Scan, Clean, CleanAfterClose, ClosingTagOf;
    CleanAtEnd(text, suppressing);
    if suppressing.Some? && IndexOf(text, suppressing.value).Some? {
      var close := suppressing.value;
      var i := IndexOf(text, close).value;
      ScanAtClose(text, close, i);
      CleanAtClose(text, close, i);
      ScanIsClean(text[i + |close|..], None);
    } else if suppressing.None? && FindOpen(text).Some? {
      var t := FindOpen(text).value;
      TotalAtTag(text, t);
      CleanAtTag(text, t);
      ScanIsClean(text[t.end..], Some(ClosingTagOf(text[t.start + 1..t.end - 1])));
    } else {
      TotalAtEnd(text, suppressing);
    }
  }

  /** Outside suppression at most 31 characters are held back, and they start with `<`. */
  lemma {:induction false} HeldBackIsShort(text: string, suppressing: Option<ClosingTag>)
    ensures var s := Scan(text, suppressing);
            s.suppressing.None? ==> |s.buffer| < HOLD_LIMIT && (s.buffer != "" ==> s.buffer[0] == '<')
    decreases |text|
  {
    hide OpenTagAt, OccursAt, Scan, SafeLength;
    if suppressing.Some? {
      match IndexOf(text, suppressing.value) {
        case None => ScanNoClose(text, suppressing.value);
        case Some(i) =>
          ScanAtClose(text, suppressing.value, i);
          HeldBackIsShort(text[i + |suppressing.value|..], None);
      }
    } else {
      match FindOpen(text) {
        case None => ScanNoTag(text);
        case Some(t) =>
          ScanAtTag(text, t);
          HeldBackIsShort(text[t.end..], Some(ClosingTagOf(text[t.start + 1..t.end - 1])));
      }
    }
  }

  // ---------- Appending text ----------

  lemma OpenTagAppend(b: string, c: string, i: nat, e: nat)
    requires e <= |b|
    ensures OpenTagAt(b + c, i, e) == OpenTagAt(b, i, e)
  {
    if i + 2 <= e {
      assert (b + c)[i + 1..e - 1] == b[i + 1..e - 1];
    }
  }

  lemma OpenTagDrop(s: string, k: nat, i: nat, e: nat)
    requires k <= |s|
    ensures OpenTagAt(s[k..], i, e) == OpenTagAt(s, k + i, k + e)
  {
    if i + 2 <= e && k + e <= |s| {
      assert s[k..][i + 1..e - 1] == s[k + i + 1..k + e - 1];
    }
  }

  lemma FindOpenIs(s: string, t: Tag)
    requires OpenTagAt(s, t.start, t.end)
    requires forall i: nat, e: nat | OpenTagAt(s, i, e) :: t.start <= i
    ensures FindOpen(s) == Some(t)
  {
    hide IsLeakName;
    var u := FindOpen(s);
    assert u.Some? && u.value.start == t.start;
    TagEndIsUnique(s, t.start, t.end, u.value.end);
  }

  /** An open tag already complete in `b` is still the leftmost one after more text arrives: a tag
      that started earlier would have to run across its `<`. */
  lemma FindOpenAppend(b: string, c: string)
    requires FindOpen(b).Some?
    ensures FindOpen(b + c) == FindOpen(b)
  {
    hide IsLeakName;
    var t := FindOpen(b).value;
    OpenTagAppend(b, c, t.start, t.end);
    forall i: nat, e: nat | OpenTagAt(b + c, i, e) ensures t.start <= i {
      if i < t.start {
        if t.start < e - 1 {
          TagHasNoInnerBracket(b + c, i, e, t.start);
        }
        OpenTagAppend(b, c, i, e);
      }
    }
    FindOpenIs(b + c, t);
  }

  /** With no open tag in `b`, dropping the part `SafeLength` releases does not hide an open tag
      that appears once `c` has arrived, provided that tag is short enough to have been held. */
  lemma FindOpenHeld(b: string, c: string)
    requires FindOpen(b).None?
    requires FindOpen(b + c).Some? ==> FindOpen(b + c).value.end - FindOpen(b + c).value.start <= HOLD_LIMIT
    ensures var n := SafeLength(b);
            match FindOpen(b + c)
            case Some(t) => n <= t.start && FindOpen((b + c)[n..]) == Some(Tag(t.start - n, t.end - n))
            case None => FindOpen((b + c)[n..]).None?
  {
    hide IsLeakName;
    var n := SafeLength(b);
    match FindOpen(b + c) {
      case None =>
        forall i: nat, e: nat ensures !OpenTagAt((b + c)[n..], i, e) { OpenTagDrop(b + c, n, i, e); }
      case Some(t) =>
        StartsInHeldPart(b, c, t);
        OpenTagDrop(b + c, n, t.start - n, t.end - n);
        forall i: nat, e: nat | OpenTagAt((b + c)[n..], i, e) ensures t.start - n <= i { OpenTagDrop(b + c, n, i, e); }
        FindOpenIs((b + c)[n..], Tag(t.start - n, t.end - n));
    }
  }

  lemma StartsInHeldPart(b: string, c: string, t: Tag)
    requires FindOpen(b).None? && OpenTagAt(b + c, t.start, t.end)
    requires t.end - t.start <= HOLD_LIMIT
    ensures SafeLength(b) <= t.start
  {
    if t.end <= |b| { OpenTagAppend(b, c, t.start, t.end); }
    if t.start < |b| {
      forall j | t.start < j < |b| ensures b[j] != '<' {
        if j < t.end - 1 { TagHasNoInnerBracket(b + c, t.start, t.end, j); }
        assert (b + c)[j] == b[j];
      }
      assert b[t.start] == '<';
    }
  }

  lemma SafeLengthHeld(b: string, c: string)
    requires c != ""
    ensures SafeLength(b + c) == SafeLength(b) + SafeLength((b + c)[SafeLength(b)..])
  {
    hide SafeLength;
    var n, s := SafeLength(b), b + c;
    assert forall j | 0 <= j < |b| :: s[j] == b[j];
    SafeLengthDrop(s, n);
  }

  /** A cut before the last `<` or close to it does not move the safe part. */
  lemma SafeLengthDrop(s: string, n: nat)
    requires n <= |s|
    requires (n < |s| && s[n] == '<') || forall j | 0 <= j < n && |s| - j < HOLD_LIMIT :: s[j] != '<'
    ensures SafeLength(s) == n + SafeLength(s[n..])
  {
    var h := s[n..];
    assert forall j | 0 <= j < |h| :: h[j] == s[n + j];
    match LastBracket(s) {
      case None =>
      case Some(lt) =>
        if n <= lt { assert h[lt - n] == '<' && LastBracket(h) == Some(lt - n); }
    }
  }

  /** The heart of chunk independence: scanning what is there, then scanning what was kept together
      with the new text, is scanning all of it at once. */
  lemma {:induction false} ScanAppend(b: string, c: string, suppressing: Option<ClosingTag>)
    requires OpenTagsFit(b + c, suppressing)
    ensures var now := Scan(b, suppressing);
            Scan(b + c, suppressing) == Scan(now.buffer + c, now.suppressing).After(now.out)
    decreases |b|
  {
    hide OpenTagAt, OccursAt, Scan, SafeLength;
    if b == "" || c == "" {
      ScanAppendEmpty(b, c, suppressing);
    } else if suppressing.Some? {
      var close := suppressing.value;
      if IndexOf(b, close).Some? {
        var i := IndexOf(b, close).value;
        IndexOfAppend(b, c, close);
        ScanAtClose(b, close, i);
        ScanAtClose(b + c, close, i);
        assert (b + c)[i + |close|..] == b[i + |close|..] + c;
        ScanAppend(b[i + |close|..], c, None);
      } else {
        ScanNoClose(b, close);
        assert Scan(b + c, suppressing).After("") == Scan(b + c, suppressing);
      }
    } else if FindOpen(b).Some? {
      var t := FindOpen(b).value;
      var close := Some(ClosingTagOf(b[t.start + 1..t.end - 1]));
      FindOpenAppend(b, c);
      ScanAtTag(b, t);
      ScanAtTag(b + c, t);
      assert (b + c)[t.start + 1..t.end - 1] == b[t.start + 1..t.end - 1];
      assert (b + c)[t.end..] == b[t.end..] + c;
      assert (b + c)[..t.start] == b[..t.start];
      ScanAppend(b[t.end..], c, close);
      var now := Scan(b[t.end..], close);
      AfterTwice(Scan(now.buffer + c, now.suppressing), b[..t.start], now.out);
    } else {
      ScanAppendHeld(b, c);
    }
  }

  lemma ScanAppendHeld(b: string, c: string)
    requires b != "" && c != "" && FindOpen(b).None? && OpenTagsFit(b + c, None)
    ensures var n := SafeLength(b);
            Scan(b, None) == Scanned(b[..n], b[n..], None)
            && Scan(b + c, None) == Scan(b[n..] + c, None).After(b[..n])
  {
    hide OpenTagAt, OccursAt, Scan, SafeLength;
    var n := SafeLength(b);
    var s, h := b + c, b[n..] + c;
    ScanNoTag(b);
    FindOpenHeld(b, c);
    assert s[n..] == h;
    if FindOpen(s).Some? {
      ScanShiftTag(s, n, FindOpen(s).value);
    } else {
      SafeLengthHeld(b, c);
      ScanShiftNoTag(s, n);
    }
  }

  lemma ScanShiftTag(s: string, n: nat, t: Tag)
    requires n <= t.start <= t.end <= |s| && FindOpen(s) == Some(t)
    requires FindOpen(s[n..]) == Some(Tag(t.start - n, t.end - n))
    ensures Scan(s, None) == Scan(s[n..], None).After(s[..n])
  {
    hide Scan, OpenTagAt, OccursAt;
    var h, u := s[n..], Tag(t.start - n, t.end - n);
    assert h[u.end..] == s[t.end..];
    assert h[u.start + 1..u.end - 1] == s[t.start + 1..t.end - 1];
    assert s[..n] + h[..u.start] == s[..t.start];
    ScanAtTag(s, t);
    ScanAtTag(h, u);
    AfterTwice(Scan(s[t.end..], Some(ClosingTagOf(s[t.start + 1..t.end - 1]))), s[..n], h[..u.start]);
  }

  lemma ScanShiftNoTag(s: string, n: nat)
    requires n < |s| && FindOpen(s).None? && FindOpen(s[n..]).None?
    requires SafeLength(s) == n + SafeLength(s[n..])
    ensures Scan(s, None) == Scan(s[n..], None).After(s[..n])
  {
    hide OpenTagAt, OccursAt, SafeLength, Scan;
    var h := s[n..];
    var k := SafeLength(h);
    ScanNoTag(s);
    ScanNoTag(h);
    assert s[..n] + h[..k] == s[..n + k];
    assert h[k..] == s[n + k..];
  }

  /** An empty chunk changes nothing. */
  lemma {:induction false} ScanAppendEmpty(b: string, c: string, suppressing: Option<ClosingTag>)
    requires b == "" || c == ""
    ensures var now := Scan(b, suppressing);
            Scan(b + c, suppressing) == Scan(now.buffer + c, now.suppressing).After(now.out)
    decreases |b|
  {
    hide OpenTagAt, OccursAt, Scan;
    if b == "" {
      ScanEmpty(suppressing);
      assert Scan(c, suppressing).After("") == Scan(c, suppressing);
      assert "" + c == c;
    } else {
      assert b + c == b;
      ScanSettled(b, suppressing);
      var now := Scan(b, suppressing);
      assert now.buffer + c == now.buffer;
      assert now.out + "" == now.out;
    }
  }

  /** What is kept would be kept again. */
  lemma {:induction false} ScanSettled(b: string, suppressing: Option<ClosingTag>)
    ensures var now := Scan(b, suppressing);
            Scan(now.buffer, now.suppressing) == Scanned("", now.buffer, now.suppressing)
    decreases |b|
  {
    hide OpenTagAt, OccursAt, Scan, SafeLength;
    if suppressing.Some? {
      match IndexOf(b, suppressing.value) {
        case None => ScanNoClose(b, suppressing.value);
        case Some(i) =>
          ScanAtClose(b, suppressing.value, i);
          ScanSettled(b[i + |suppressing.value|..], None);
      }
    } else {
      match FindOpen(b) {
        case Some(t) =>
          ScanAtTag(b, t);
          ScanSettled(b[t.end..], Some(ClosingTagOf(b[t.start + 1..t.end - 1])));
        case None =>
          ScanNoTag(b);
          HeldStaysHeld(b);
          ScanNoTag(b[SafeLength(b)..]);
      }
    }
  }

  lemma HeldStaysHeld(b: string)
    requires FindOpen(b).None?
    ensures var h := b[SafeLength(b)..]; FindOpen(h).None? && SafeLength(h) == 0
  {
    hide IsLeakName, SafeLength;
    var n := SafeLength(b);
    var h := b[n..];
    forall i: nat, e: nat ensures !OpenTagAt(h, i, e) { OpenTagDrop(b, n, i, e); }
    assert forall j | 0 <= j < |h| :: h[j] == b[n + j];
  }

  // ---------- Whole streams ----------

  /** One more `process` call: what has been emitted so far, and the state left behind. */
  function Feed(s: Scanned, chunk: string): Scanned {
    Scan(s.buffer + chunk, s.suppressing).After(s.out)
  }

  function Run(s: Scanned, chunks: seq<string>): Scanned
    decreases |chunks|
  {
    if chunks == [] then s else Run(Feed(s, chunks[0]), chunks[1..])
  }

  const FRESH := Scanned("", "", None)

  /** Everything a stream of `process` calls and a final `flush` emits. */
  function Streamed(chunks: seq<string>): string {
    Run(FRESH, chunks).Total()
  }

  /** A fresh sanitizer fed a stream of chunks and flushed. */
  method SanitizeStream(chunks: seq<string>) returns (out: string)
    ensures out == Streamed(chunks)
  {
    var s := new StreamSanitizer();
    out := "";
    for i := 0 to |chunks|
      invariant fresh(s)
      invariant Run(FRESH, chunks) == Run(Scanned(out, s.buffer, s.suppressing), chunks[i..])
    {
      assert chunks[i..][1..] == chunks[i + 1..];
      var piece := s.Process(Some(chunks[i]));
      out := out + piece;
    }
    var tail := s.Flush();
    out := out + tail;
  }

  lemma FitAtClose(text: string, close: ClosingTag, i: nat)
    requires IndexOf(text, close) == Some(i)
    ensures OpenTagsFit(text, Some(close)) == OpenTagsFit(text[i + |close|..], None)
  {
    hide OpenTagAt, OccursAt;
  }

  lemma FitAtTag(text: string, t: Tag)
    requires FindOpen(text) == Some(t)
    ensures OpenTagsFit(text, None)
         == (t.end - t.start <= HOLD_LIMIT
             && OpenTagsFit(text[t.end..], Some(ClosingTagOf(text[t.start + 1..t.end - 1]))))
  {
    hide OccursAt;
  }

  lemma FitAtEnd(text: string, suppressing: Option<ClosingTag>)
    requires if suppressing.Some? then IndexOf(text, suppressing.value).None? else FindOpen(text).None?
    ensures OpenTagsFit(text, suppressing)
  {
    hide OpenTagAt, OccursAt;
  }

  lemma {:induction false} FitsPrefix(b: string, c: string, suppressing: Option<ClosingTag>)
    requires OpenTagsFit(b + c, suppressing)
    ensures OpenTagsFit(b, suppressing)
    decreases |b|
  {
    hide FindOpen, IndexOf, OpenTagsFit, ClosingTagOf;
    if suppressing.Some? && IndexOf(b, suppressing.value).Some? {
      var i, close := IndexOf(b, suppressing.value).value, suppressing.value;
      IndexOfAppend(b, c, close);
      FitAtClose(b, close, i);
      FitAtClose(b + c, close, i);
      assert (b + c)[i + |close|..] == b[i + |close|..] + c;
      FitsPrefix(b[i + |close|..], c, None);
    } else if suppressing.None? && FindOpen(b).Some? {
      var t := FindOpen(b).value;
      FindOpenAppend(b, c);
      FitAtTag(b, t);
      FitAtTag(b + c, t);
      assert (b + c)[t.start + 1..t.end - 1] == b[t.start + 1..t.end - 1];
      assert (b + c)[t.end..] == b[t.end..] + c;
      FitsPrefix(b[t.end..], c, Some(ClosingTagOf(b[t.start + 1..t.end - 1])));
    } else {
      FitAtEnd(b, suppressing);
    }
  }

  /** After any chunks, output, buffer and mode are those of one scan over the text so far. */
  lemma {:induction false} RunIsScan(before: string, chunks: seq<string>)
    requires OpenTagsFit(before + Concat(chunks), None)
    ensures Run(Scan(before, None), chunks) == Scan(before + Concat(chunks), None)
    decreases |chunks|
  {
    hide Scan, OpenTagsFit;
    if chunks == [] {
      assert before + "" == before;
    } else {
      var text := before + chunks[0];
      assert before + Concat(chunks) == text + Concat(chunks[1..]);
      FitsPrefix(text, Concat(chunks[1..]), None);
      ScanAppend(before, chunks[0], None);
      RunIsScan(text, chunks[1..]);
    }
  }

  /** The cuts between chunks do not show in the output. */
  lemma StreamedIsClean(chunks: seq<string>)
    requires OpenTagsFit(Concat(chunks), None)
    ensures Streamed(chunks) == Clean(Concat(chunks))
  {
    assert "" + Concat(chunks) == Concat(chunks);
    assert Scan("", None) == FRESH;
    RunIsScan("", chunks);
    ScanIsClean(Concat(chunks), None);
  }

  /** Whatever part of the text has arrived, and however it was cut, the reader has been given
      the clean form of exactly that part. */
  ghost predicate CutsNeverShow(text: string) {
    forall chunks | Concat(chunks) <= text :: Streamed(chunks) == Clean(Concat(chunks))
  }

  /** The exact meaning of the constant 32: the cuts never show if and only if no suppressed block
      is opened by a tag longer than HOLD_LIMIT. */
  lemma CutsNeverShowIffTagsFit(text: string)
    ensures CutsNeverShow(text) <==> OpenTagsFit(text, None)
  {
    hide OpenTagsFit, Clean, Scan;
    if OpenTagsFit(text, None) {
      forall chunks | Concat(chunks) <= text ensures Streamed(chunks) == Clean(Concat(chunks)) {
        assert text == Concat(chunks) + text[|Concat(chunks)|..];
        FitsPrefix(Concat(chunks), text[|Concat(chunks)|..], None);
        StreamedIsClean(chunks);
      }
    } else {
      var cut, end := LongTagShows(text, None);
      var chunks := [text[..cut], text[cut..end]];
      TwoChunks(text[..cut], text[cut..end]);
      assert text[..cut] + text[cut..end] == text[..end];
      ScanIsClean(text[..end], None);
      assert Concat(chunks) == text[..end] && Streamed(chunks) != Clean(text[..end]);
    }
  }

  lemma TwoChunks(a: string, b: string)
    ensures Concat([a, b]) == a + b
    ensures Streamed([a, b]) == Feed(Scan(a, None), b).Total()
  {
    hide Scan;
    assert [a, b][1..] == [b];
    assert [b][1..] == [];
    assert Concat([b]) == b + Concat([]) == b;
    assert "" + a == a;
    assert Feed(FRESH, a) == Scan(a, None);
    assert Run(FRESH, [a, b]) == Run(Scan(a, None), [b]) == Run(Feed(Scan(a, None), b), []);
  }

  /** Where to cut so that an overlong tag slips through. */
  lemma {:induction false} LongTagShows(text: string, suppressing: Option<ClosingTag>) returns (cut: nat, end: nat)
    requires !OpenTagsFit(text, suppressing)
    ensures cut <= end <= |text|
    ensures Feed(Scan(text[..cut], suppressing), text[cut..end]).Total() != Scan(text[..end], suppressing).Total()
    decreases |text|
  {
    hide OpenTagAt, OccursAt, SafeLength, Scan;
    if suppressing.Some? {
      var i := IndexOf(text, suppressing.value).value + |suppressing.value|;
      cut, end := LongTagShows(text[i..], None);
      AfterClose(text, suppressing.value, cut);
      AfterClose(text, suppressing.value, end);
      assert text[i + cut..i + end] == text[i..][cut..end];
      cut, end := i + cut, i + end;
    } else {
      var t := FindOpen(text).value;
      if HOLD_LIMIT < t.end - t.start {
        cut, end := t.start + HOLD_LIMIT, t.end;
        LongTagCut(text, t);
        assert |text[..end]| != |text[..t.start]|;
      } else {
        cut, end := LongTagShows(text[t.end..], Some(ClosingTagOf(text[t.start + 1..t.end - 1])));
        ShowsAfterTag(text, t, cut, end);
        cut, end := t.end + cut, t.end + end;
      }
    }
  }

  lemma ShowsAfterTag(text: string, t: Tag, cut: nat, end: nat)
    requires FindOpen(text) == Some(t) && cut <= end && t.end + end <= |text|
    requires var close := Some(ClosingTagOf(text[t.start + 1..t.end - 1]));
             Feed(Scan(text[t.end..][..cut], close), text[t.end..][cut..end]).Total()
                 != Scan(text[t.end..][..end], close).Total()
    ensures Feed(Scan(text[..t.end + cut], None), text[t.end + cut..t.end + end]).Total()
        != Scan(text[..t.end + end], None).Total()
  {
    hide OpenTagAt, Scan, Feed, FindOpen;
    var close := Some(ClosingTagOf(text[t.start + 1..t.end - 1]));
    AfterTag(text, t, cut);
    AfterTag(text, t, end);
    SliceOfDrop(text, t.end, cut, end);
    FeedAfter(Scan(text[t.end..][..cut], close), text[t.end..][cut..end], text[..t.start]);
    FeedAfter(Scan(text[t.end..][..end], close), "", text[..t.start]);
    var a, b := Feed(Scan(text[t.end..][..cut], close), text[t.end..][cut..end]).Total(),
        Scan(text[t.end..][..end], close).Total();
    SamePrefix(text[..t.start], a, b);
  }

  lemma SamePrefix(before: string, a: string, b: string)
    ensures before + a == before + b ==> a == b
  {
    assert (before + a)[|before|..] == a && (before + b)[|before|..] == b;
  }

  lemma FeedAfter(s: Scanned, chunk: string, before: string)
    ensures Feed(s.After(before), chunk).Total() == before + Feed(s, chunk).Total()
    ensures s.After(before).Total() == before + s.Total()
  {
    var next := Scan(s.buffer + chunk, s.suppressing);
    assert (before + s.out) + next.out + next.Tail() == before + (s.out + next.out + next.Tail());
    assert before + s.out + s.Tail() == before + (s.out + s.Tail());
  }

  lemma AfterClose(text: string, close: ClosingTag, n: nat)
    requires IndexOf(text, close).Some? && IndexOf(text, close).value + |close| + n <= |text|
    ensures var i := IndexOf(text, close).value + |close|;
            Scan(text[..i + n], Some(close)) == Scan(text[i..][..n], None)
  {
    hide Scan;
    var i := IndexOf(text, close).value;
    var s := text[..i + |close| + n];
    assert text == s + text[i + |close| + n..];
    OccursAppend(s, text[i + |close| + n..], close, i);
    forall j: nat | j < i ensures !OccursAt(s, close, j) {
      OccursAppend(s, text[i + |close| + n..], close, j);
    }
    IndexOfIs(s, close, i);
    ScanAtClose(s, close, i);
    assert s[i + |close|..] == text[i + |close|..][..n];
  }

  lemma FindOpenInPrefix(text: string, t: Tag, n: nat)
    requires FindOpen(text) == Some(t) && n <= |text|
    ensures FindOpen(text[..n]) == if t.end <= n then Some(t) else None
  {
    hide IsLeakName;
    var s := text[..n];
    assert text == s + text[n..];
    forall i: nat, e: nat | OpenTagAt(s, i, e) ensures t.start <= i && t.end <= n {
      OpenTagAppend(s, text[n..], i, e);
      if i < t.end - 1 {
        if t.start < i { TagHasNoInnerBracket(text, t.start, t.end, i); }
        TagEndIsUnique(text, t.start, t.end, e);
      }
    }
    if t.end <= n {
      OpenTagAppend(s, text[n..], t.start, t.end);
      FindOpenIs(s, t);
    }
  }

  lemma AfterTag(text: string, t: Tag, n: nat)
    requires FindOpen(text) == Some(t) && t.end + n <= |text|
    ensures Scan(text[..t.end + n], None)
         == Scan(text[t.end..][..n], Some(ClosingTagOf(text[t.start + 1..t.end - 1]))).After(text[..t.start])
  {
    hide OpenTagAt, Scan;
    var s := text[..t.end + n];
    FindOpenInPrefix(text, t, t.end + n);
    ScanAtTag(s, t);
    DropOfTake(text, t.end, n);
    assert s[t.start + 1..t.end - 1] == text[t.start + 1..t.end - 1];
    assert s[..t.start] == text[..t.start];
  }

  /** Cut after 32 characters, the tag is released as ordinary text. */
  lemma LongTagCut(text: string, t: Tag)
    requires FindOpen(text) == Some(t) && HOLD_LIMIT < t.end - t.start
    ensures var cut := t.start + HOLD_LIMIT;
            Feed(Scan(text[..cut], None), text[cut..t.end]).Total() == text[..t.end]
    ensures Scan(text[..t.end], None).Total() == text[..t.start]
  {
    hide Scan, IsLeakName, OccursAt;
    var cut := t.start + HOLD_LIMIT;
    var head, mid := text[..cut], text[cut..t.end];
    forall k | t.start < k < t.end ensures text[k] != '<' {
      if k < t.end - 1 { TagHasNoInnerBracket(text, t.start, t.end, k); }
    }
    FindOpenInPrefix(text, t, cut);
    assert SafeLength(head) == cut by {
      assert head[t.start] == '<';
    }
    ScanClear(head);
    NoBracketIsClear(mid);
    LongTagTotals(text, t, cut);
  }

  lemma LongTagTotals(text: string, t: Tag, cut: nat)
    requires FindOpen(text) == Some(t) && t.start < cut < t.end
    requires Scan(text[..cut], None) == Scanned(text[..cut], "", None)
    requires Scan(text[cut..t.end], None) == Scanned(text[cut..t.end], "", None)
    ensures Feed(Scan(text[..cut], None), text[cut..t.end]).Total() == text[..t.end]
    ensures Scan(text[..t.end], None).Total() == text[..t.start]
  {
    hide FindOpen, Scan;
    ClearThenClear(text[..cut], text[cut..t.end]);
    assert text[..cut] + text[cut..t.end] == text[..t.end];
    OpenAtEnd(text, t);
  }

  lemma ClearThenClear(a: string, b: string)
    requires Scan(a, None) == Scanned(a, "", None) && Scan(b, None) == Scanned(b, "", None)
    ensures Feed(Scan(a, None), b).Total() == a + b
  {
    hide Scan;
    assert "" + b == b;
    assert a + b + "" == a + b;
  }

  lemma OpenAtEnd(text: string, t: Tag)
    requires FindOpen(text) == Some(t)
    ensures Scan(text[..t.end], None).Total() == text[..t.start]
  {
    hide FindOpen, Scan, ClosingTagOf;
    AfterTag(text, t, 0);
    assert text[..t.end + 0] == text[..t.end];
    assert text[t.end..][..0] == "";
    ScanEmpty(Some(ClosingTagOf(text[t.start + 1..t.end - 1])));
    assert text[..t.start] + "" + "" == text[..t.start];
  }

  /** Text without an open tag and without a `<` near its end is released at once. */
  lemma ScanClear(s: string)
    requires FindOpen(s).None?
    requires SafeLength(s) == |s|
    ensures Scan(s, None) == Scanned(s, "", None)
  {
    hide OpenTagAt, OccursAt, SafeLength, Scan;
    ScanNoTag(s);
    assert s[..|s|] == s && s[|s|..] == "";
  }

  lemma NoBracketIsClear(s: string)
    requires '<' !in s
    ensures Scan(s, None) == Scanned(s, "", None)
  {
    hide IsLeakName, OccursAt;
    assert SafeLength(s) == |s|;
    assert FindOpen(s).None?;
    ScanClear(s);
  }

  /** The condition stated over the plain text: no open tag anywhere is longer than HOLD_LIMIT. */
  lemma {:induction false} ShortTagsFit(text: string, suppressing: Option<ClosingTag>)
    requires forall i: nat, e: nat | OpenTagAt(text, i, e) :: e - i <= HOLD_LIMIT
    ensures OpenTagsFit(text, suppressing)
    decreases |text|, 0
  {
    hide IsLeakName, OccursAt;
    if text != "" {
      if suppressing.Some? {
        match IndexOf(text, suppressing.value) {
          case None =>
          case Some(i) => ShortTagsFitFrom(text, i + |suppressing.value|, None);
        }
      } else {
        match FindOpen(text) {
          case None =>
          case Some(t) => ShortTagsFitFrom(text, t.end, Some(ClosingTagOf(text[t.start + 1..t.end - 1])));
        }
      }
    }
  }

  lemma {:induction false} ShortTagsFitFrom(text: string, k: nat, suppressing: Option<ClosingTag>)
    requires 0 < k <= |text|
    requires forall i: nat, e: nat | OpenTagAt(text, i, e) :: e - i <= HOLD_LIMIT
    ensures OpenTagsFit(text[k..], suppressing)
    decreases |text| - k, 1
  {
    forall i: nat, e: nat | OpenTagAt(text[k..], i, e) ensures e - i <= HOLD_LIMIT {
      OpenTagDrop(text, k, i, e);
      assert (k + e) - (k + i) <= HOLD_LIMIT;
    }
    ShortTagsFit(text[k..], suppressing);
  }

  /** Text without an open tag comes through unchanged, however it was cut. */
  lemma CleanTextPasses(chunks: seq<string>)
    requires FindOpen(Concat(chunks)).None?
    ensures Streamed(chunks) == Concat(chunks)
  {
    ShortTagsFit(Concat(chunks), None);
    StreamedIsClean(chunks);
  }

  /** At every moment of every stream, outside suppression fewer than 32 characters are held. */
  lemma {:induction false} LatencyBound(s: Scanned, chunks: seq<string>)
    requires chunks != []
    ensures var r := Run(s, chunks);
            r.suppressing.None? ==> |r.buffer| < 32
    decreases |chunks|
  {
    HeldBackIsShort(s.buffer + chunks[0], s.suppressing);
    if |chunks| == 1 {
      assert Run(s, chunks) == Feed(s, chunks[0]);
    } else {
      LatencyBound(Feed(s, chunks[0]), chunks[1..]);
    }
  }

  const LONG_TAG := "<" + NAMESPACE + "aaaaaaaaaaaaaaaaaaaaaaaaa" + ">"

  /** A 33-character tag cut after its 32nd character is emitted instead of suppressed. */
  lemma LongTagWitness()
    ensures |LONG_TAG| == HOLD_LIMIT + 1
    ensures Clean(LONG_TAG) == ""
    ensures Streamed([LONG_TAG[..32], LONG_TAG[32..]]) == LONG_TAG
  {
    var name := LONG_TAG[1..32];
    assert name[..|NAMESPACE|] == NAMESPACE;
    assert OpenTagAt(LONG_TAG, 0, 33);
    FindOpenIs(LONG_TAG, Tag(0, 33));
    LongTagCut(LONG_TAG, Tag(0, 33));
    TwoChunks(LONG_TAG[..32], LONG_TAG[32..]);
    assert LONG_TAG[..33] == LONG_TAG && LONG_TAG[32..33] == LONG_TAG[32..];
    ScanIsClean(LONG_TAG, None);
  }

  // ---------- When the output is clean itself ----------

  function LastAngle(s: string): (r: Option<nat>)
    ensures r.Some? ==> r.value < |s| && (s[r.value] == '<' || s[r.value] == '>')
                        && forall j | r.value < j < |s| :: s[j] != '<' && s[j] != '>'
    ensures r.None? ==> forall j | 0 <= j < |s| :: s[j] != '<' && s[j] != '>'
  {
    if s == "" then None
    else if s[|s| - 1] == '<' || s[|s| - 1] == '>' then Some(|s| - 1)
    else LastAngle(s[..|s| - 1])
  }

  /** The last angle bracket and what follows it, when that bracket is `<`: the only part of a text an
      open tag can start in that ends in later text. */
  function Pending(s: string): (r: string)
    ensures |r| <= |s| && s[|s| - |r|..] == r
  {
    match LastAngle(s)
    case Some(k) => if s[k] == '<' then s[k..] else ""
    case None => ""
  }

  lemma PendingIs(s: string, i: nat)
    requires i < |s| && s[i] == '<' && forall j | i < j < |s| :: s[j] != '<' && s[j] != '>'
    ensures i == |s| - |Pending(s)|
  {
    var k := LastAngle(s).value;
    assert !(k < i) && !(i < k);
  }

  /** What was kept before a join matters only through its pending part. */
  lemma TagAcrossJoin(a: string, b: string)
    requires FindOpen(a).None?
    ensures FindOpen(a + b).Some? <==> FindOpen(Pending(a) + b).Some?
  {
    hide IsLeakName, Pending;
    var k, s := |a| - |Pending(a)|, a + b;
    assert Pending(a) + b == s[k..];
    if FindOpen(s).Some? {
      var t := FindOpen(s).value;
      TagReachesJoin(a, b, t);
      OpenTagDrop(s, k, t.start - k, t.end - k);
    }
    if FindOpen(s[k..]).Some? {
      var t := FindOpen(s[k..]).value;
      OpenTagDrop(s, k, t.start, t.end);
    }
  }

  lemma TagReachesJoin(a: string, b: string, t: Tag)
    requires FindOpen(a).None? && OpenTagAt(a + b, t.start, t.end)
    ensures |a| - |Pending(a)| <= t.start
  {
    hide IsLeakName, Pending;
    if t.end <= |a| { OpenTagAppend(a, b, t.start, t.end); }
    if t.start < |a| {
      forall j | t.start < j < |a| ensures a[j] != '<' && a[j] != '>' {
        assert (a + b)[j] == a[j];
        TagHasNoInnerBracket(a + b, t.start, t.end, j);
      }
      assert a[t.start] == (a + b)[t.start];
      PendingIs(a, t.start);
    }
  }

  /** Removing the blocks of this text joins kept text into a new open tag: some kept piece, after the
      pending part of the kept text before it, holds one. */
  predicate Rejoins(text: string, pending: string)
    decreases |text|, 1
  {
    match FindOpen(text)
    case None => FindOpen(pending + text).Some?
    case Some(t) =>
      var kept := pending + text[..t.start];
      FindOpen(kept).Some? || RejoinsAfterClose(text[t.end..], ClosingTagOf(text[t.start + 1..t.end - 1]),
                                                Pending(kept))
  }

  predicate RejoinsAfterClose(text: string, close: ClosingTag, pending: string)
    decreases |text|, 0
  {
    match IndexOf(text, close)
    case None => false
    case Some(i) => Rejoins(text[i + |close|..], pending)
  }

  lemma {:induction false} OutputHasTag(text: string, pending: string)
    requires FindOpen(pending).None?
    ensures FindOpen(pending + Clean(text)).Some? <==> Rejoins(text, pending)
    decreases |text|
  {
    hide OpenTagAt, OccursAt, Pending, FindOpenFrom, ClosingTagOf;
    if FindOpen(text).None? {
      CleanAtEnd(text, None);
    } else {
      var t := FindOpen(text).value;
      var close := ClosingTagOf(text[t.start + 1..t.end - 1]);
      var kept, later := pending + text[..t.start], CleanAfterClose(text[t.end..], close);
      CleanAtTag(text, t);
      assert pending + (text[..t.start] + later) == kept + later;
      if FindOpen(kept).Some? {
        FindOpenAppend(kept, later);
      } else {
        TagAcrossJoin(kept, later);
        PendingHasNoTag(kept);
        if IndexOf(text[t.end..], close).Some? {
          var i := IndexOf(text[t.end..], close).value;
          CleanAtClose(text[t.end..], close, i);
          OutputHasTag(text[t.end..][i + |close|..], Pending(kept));
        } else {
          CleanAtEnd(text[t.end..], Some(close));
          assert Pending(kept) + "" == Pending(kept);
        }
      }
    }
  }

  lemma PendingHasNoTag(s: string)
    requires FindOpen(s).None?
    ensures FindOpen(Pending(s)).None?
  {
    hide Pending, IsLeakName;
    var k := |s| - |Pending(s)|;
    forall i: nat, e: nat ensures !OpenTagAt(s[k..], i, e) { OpenTagDrop(s, k, i, e); }
  }

  lemma {:induction false} CleanShrinks(text: string)
    ensures |Clean(text)| <= |text|
    ensures FindOpen(text).Some? ==> |Clean(text)| < |text|
    decreases |text|
  {
    hide OpenTagAt, OccursAt, ClosingTagOf, FindOpenFrom;
    if FindOpen(text).None? {
      CleanAtEnd(text, None);
    } else {
      var t := FindOpen(text).value;
      var close := ClosingTagOf(text[t.start + 1..t.end - 1]);
      CleanAtTag(text, t);
      if IndexOf(text[t.end..], close).Some? {
        CleanAtClose(text[t.end..], close, IndexOf(text[t.end..], close).value);
        CleanShrinks(text[t.end..][IndexOf(text[t.end..], close).value + |close|..]);
      } else {
        CleanAtEnd(text[t.end..], Some(close));
      }
    }
  }

  /** Exactly when sanitizing a second time changes nothing: when the first time left no open tag, that is,
      when removing the blocks does not join kept text into one. */
  lemma IdempotentIffNothingRejoins(text: string)
    ensures Clean(Clean(text)) == Clean(text) <==> !Rejoins(text, "")
    ensures FindOpen(Clean(text)).Some? <==> Rejoins(text, "")
  {
    hide OpenTagAt, Rejoins, Clean;
    assert "" + Clean(text) == Clean(text);
    assert FindOpen("").None? by { NoTagInEmpty(); }
    OutputHasTag(text, "");
    CleanShrinks(Clean(text));
    CleanAtEnd(Clean(text), None);
  }

  lemma NoTagInEmpty()
    ensures FindOpen("").None?
  {
    assert forall i: nat, e: nat :: !OpenTagAt("", i, e);
  }

  /** A plainer condition: before every removed block the last angle bracket kept, if any, is `>`. */
  predicate ClosedAtJoins(text: string, pending: string)
    decreases |text|, 1
  {
    match FindOpen(text)
    case None => true
    case Some(t) =>
      var open := Pending(pending + text[..t.start]);
      open == "" && ClosedAfterClose(text[t.end..], ClosingTagOf(text[t.start + 1..t.end - 1]), open)
  }

  predicate ClosedAfterClose(text: string, close: ClosingTag, pending: string)
    decreases |text|, 0
  {
    match IndexOf(text, close)
    case None => true
    case Some(i) => ClosedAtJoins(text[i + |close|..], pending)
  }

  lemma RejoinsFirst(text: string)
    ensures Rejoins(text, "")
       <==> match FindOpen(text)
            case None => false
            case Some(t) =>
              var kept := text[..t.start];
              RejoinsAfterClose(text[t.end..], ClosingTagOf(text[t.start + 1..t.end - 1]), Pending(kept))
  {
    hide FindOpen, Pending, ClosingTagOf, RejoinsAfterClose;
    assert "" + text == text;
    if FindOpen(text).Some? {
      var t := FindOpen(text).value;
      assert "" + text[..t.start] == text[..t.start];
      BeforeFirstTag(text, t);
    }
  }

  lemma ClosedFirst(text: string, t: Tag)
    requires ClosedAtJoins(text, "") && FindOpen(text) == Some(t)
    ensures Pending(text[..t.start]) == ""
    ensures ClosedAfterClose(text[t.end..], ClosingTagOf(text[t.start + 1..t.end - 1]), "")
  {
    hide FindOpen, Pending, ClosingTagOf, ClosedAfterClose;
    assert "" + text[..t.start] == text[..t.start];
  }

  lemma {:induction false} ClosedNeverRejoins(text: string)
    requires ClosedAtJoins(text, "")
    ensures !Rejoins(text, "")
    decreases |text|, 1
  {
    hide *;
    RejoinsFirst(text);
    if FindOpen(text).Some? {
      var t := FindOpen(text).value;
      ClosedFirst(text, t);
      NotAfterClose(text[t.end..], ClosingTagOf(text[t.start + 1..t.end - 1]));
    }
  }

  lemma {:induction false} NotAfterClose(text: string, close: ClosingTag)
    requires ClosedAfterClose(text, close, "")
    ensures !RejoinsAfterClose(text, close, "")
    decreases |text|, 0
  {
    hide IndexOf, Rejoins, ClosedAtJoins;
    if IndexOf(text, close).Some? {
      ClosedNeverRejoins(text[IndexOf(text, close).value + |close|..]);
    }
  }

  lemma BeforeFirstTag(text: string, t: Tag)
    requires FindOpen(text) == Some(t)
    ensures FindOpen(text[..t.start]).None?
  {
    hide OpenTagAt;
    FindOpenInPrefix(text, t, t.start);
  }
}
