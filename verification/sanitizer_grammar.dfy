/** Which tags the sanitizer of apps/web/lib/sanitize-stream.js removes, written out character by
    character, and what becomes of a text that holds one. */
module SanitizerGrammar {
  import opened Options
  import opened Text
  import opened Sanitizer

  /** The open tags, in full: two names, and all names in one namespace. */
  ghost predicate IsWrittenTag(tag: string) {
    || tag == "<ip_reminder>"
    || tag == "<system-reminder>"
    || (8 < |tag| && tag[0] == '<' && tag[1..7] == "antml:" && tag[|tag| - 1] == '>'
        && forall k | 7 <= k < |tag| - 1 ::
             'a' <= tag[k] <= 'z' || 'A' <= tag[k] <= 'Z' || '0' <= tag[k] <= '9' || tag[k] == '_' || tag[k] == '-')
  }

  ghost predicate HoldsTag(s: string) {
    exists i: nat, e: nat | i <= e <= |s| :: IsWrittenTag(s[i..e])
  }

  /** A name as it stands between the angle brackets. */
  ghost predicate IsWrittenName(name: string) {
    IsWrittenTag("<" + name + ">")
  }

  lemma TagIsBracketed(tag: string)
    requires IsWrittenTag(tag)
    ensures 2 <= |tag| && tag[0] == '<' && tag[|tag| - 1] == '>' && IsLeakName(tag[1..|tag| - 1])
  {
    LiteralTags();
    if tag == "<ip_reminder>" {
      BetweenBrackets(tag, "ip_reminder");
    } else if tag == "<system-reminder>" {
      BetweenBrackets(tag, "system-reminder");
    } else {
      SliceOfSlice(tag, 1, |tag| - 1, 0, 6);
    }
  }

  lemma LiteralTags()
    ensures "<" + "ip_reminder" + ">" == "<ip_reminder>"
    ensures "<" + "system-reminder" + ">" == "<system-reminder>"
  {
  }

  lemma BetweenBrackets(tag: string, name: string)
    requires tag == "<" + name + ">"
    ensures 2 <= |tag| && tag[1..|tag| - 1] == name && tag[0] == '<' && tag[|tag| - 1] == '>'
  {
  }

  lemma NameIsWritten(tag: string)
    requires 2 <= |tag| && tag[0] == '<' && tag[|tag| - 1] == '>' && IsLeakName(tag[1..|tag| - 1])
    ensures IsWrittenTag(tag)
  {
    var name := tag[1..|tag| - 1];
    assert tag == "<" + name + ">";
    if name == "ip_reminder" {
      LiteralTags();
    } else if name == "system-reminder" {
      LiteralTags();
    } else {
      SliceOfSlice(tag, 1, |tag| - 1, 0, 6);
      forall k | 7 <= k < |tag| - 1
        ensures 'a' <= tag[k] <= 'z' || 'A' <= tag[k] <= 'Z' || '0' <= tag[k] <= '9' || tag[k] == '_' || tag[k] == '-'
      {
        assert tag[k] == name[k - 1];
      }
    }
  }

  /** The pattern matches exactly the written tags. */
  lemma GrammarIs(s: string, i: nat, e: nat)
    ensures OpenTagAt(s, i, e) <==> i <= e <= |s| && IsWrittenTag(s[i..e])
  {
    if i <= e <= |s| {
      var tag := s[i..e];
      if 2 <= |tag| { SliceOfSlice(s, i, e, 1, e - i - 1); }
      if IsWrittenTag(tag) { TagIsBracketed(tag); }
      if OpenTagAt(s, i, e) { NameIsWritten(tag); }
    }
  }

  lemma NoTagIsFound(s: string)
    ensures FindOpen(s).None? <==> !HoldsTag(s)
  {
    hide IsWrittenTag, OpenTagAt;
    forall i: nat, e: nat ensures OpenTagAt(s, i, e) <==> i <= e <= |s| && IsWrittenTag(s[i..e]) { GrammarIs(s, i, e); }
    if FindOpen(s).Some? {
      assert IsWrittenTag(s[FindOpen(s).value.start..FindOpen(s).value.end]);
    }
  }

  /** Text that holds no written tag is the output, whole or in any cutting. */
  lemma UntaggedTextPasses(chunks: seq<string>)
    requires !HoldsTag(Concat(chunks))
    ensures Clean(Concat(chunks)) == Concat(chunks) && Streamed(chunks) == Concat(chunks)
  {
    hide HoldsTag, Streamed;
    NoTagIsFound(Concat(chunks));
    CleanAtEnd(Concat(chunks), None);
    CleanTextPasses(chunks);
  }

  /** A written tag is the first one when none begins before it. */
  lemma FirstTag(before: string, name: string, rest: string)
    requires !HoldsTag(before) && IsWrittenName(name)
    ensures var s, b := before + ("<" + name + ">" + rest), |before|;
            var t := Tag(b, b + |name| + 2);
            FindOpen(s) == Some(t) && s[t.start + 1..t.end - 1] == name && s[..b] == before && s[t.end..] == rest
  {
    hide IsWrittenTag, OpenTagAt;
    var tag := "<" + name + ">";
    var s, b := before + (tag + rest), |before|;
    assert s[b..b + |tag|] == tag && s[b + 1..b + |tag| - 1] == name;
    GrammarIs(s, b, b + |tag|);
    NoTagIsFound(before);
    forall i: nat, e: nat | OpenTagAt(s, i, e) ensures b <= i {
      if i < b {
        if b < e - 1 { TagHasNoInnerBracket(s, i, e, b); }
        OpenTagAppend(before, tag + rest, i, if e <= b then e else 0);
        OpenTagBounds(s, i, e);
      }
    }
    FindOpenIs(s, Tag(b, b + |tag|));
  }

  lemma OpenTagBounds(s: string, i: nat, e: nat)
    requires OpenTagAt(s, i, e)
    ensures i + 2 <= e <= |s| && s[i] == '<' && s[e - 1] == '>'
  {
  }

  /** A close tag found in a block stands at its end: it cannot overlap itself. */
  lemma CloseEndsBlock(body: string, name: string, after: string)
    requires IsWrittenName(name)
    requires forall j: nat :: !OccursAt(body, "</" + name + ">", j)
    ensures IndexOf(body + ("</" + name + ">" + after), "</" + name + ">") == Some(|body|)
  {
    hide IsWrittenTag;
    var close := "</" + name + ">";
    var s := body + (close + after);
    NameHasNoBracket(name);
    assert s[|body|..|body| + |close|] == close;
    forall j: nat | j < |body| ensures !OccursAt(s, close, j) {
      if OccursAt(s, close, j) && |body| < j + |close| {
        assert s[j..j + |close|][|body| - j] == s[|body|] == '<';
        CloseHasOneBracket(name, |body| - j);
      }
      if j + |close| <= |body| { OccursAppend(body, close + after, close, j); }
    }
    IndexOfIs(s, close, |body|);
  }

  lemma NameHasNoBracket(name: string)
    requires IsWrittenName(name)
    ensures '<' !in name
  {
    var tag := "<" + name + ">";
    TagIsBracketed(tag);
    assert tag[1..|tag| - 1] == name;
    assert OpenTagAt(tag, 0, |tag|);
    forall k | 0 <= k < |name| ensures name[k] != '<' { TagHasNoInnerBracket(tag, 0, |tag|, k + 1); }
  }

  lemma CloseHasOneBracket(name: string, k: nat)
    requires '<' !in name && 0 < k < |name| + 3
    ensures ("</" + name + ">")[k] != '<'
  {
    var close := "</" + name + ">";
    if 2 <= k < |name| + 2 { assert close[k] == name[k - 2] && name[k - 2] in name; }
  }

  /** For every written name: the block between its tags is dropped with them, whatever it holds, and the
      text before and after is treated as if it stood alone. */
  lemma BlockIsDropped(before: string, name: string, body: string, after: string)
    requires !HoldsTag(before) && IsWrittenName(name)
    requires forall j: nat :: !OccursAt(body, "</" + name + ">", j)
    ensures Clean(before + ("<" + name + ">" + (body + ("</" + name + ">" + after)))) == before + Clean(after)
    ensures !HoldsTag(after) ==>
              Clean(before + "<" + name + ">" + body + "</" + name + ">" + after) == before + after
  {
    hide HoldsTag, IsWrittenName, OccursAt, Clean, CleanAfterClose, FindOpen, IndexOf;
    var rest := body + ("</" + name + ">" + after);
    FirstTag(before, name, rest);
    CloseEndsBlock(body, name, after);
    DropThroughClose(before + ("<" + name + ">" + rest), Tag(|before|, |before| + |name| + 2), "</" + name + ">",
                     body, after);
    NoTagIsFound(after);
    CleanAtEnd(after, None);
    Regroup(before, "<" + name + ">", body, "</" + name + ">", after);
    Flatten(before, name, body, after);
  }

  lemma DropThroughClose(s: string, t: Tag, close: ClosingTag, body: string, after: string)
    requires FindOpen(s) == Some(t) && ClosingTagOf(s[t.start + 1..t.end - 1]) == close
    requires s[t.end..] == body + (close + after) && IndexOf(s[t.end..], close) == Some(|body|)
    ensures Clean(s) == s[..t.start] + Clean(after)
  {
    hide OccursAt, Clean, CleanAfterClose, IndexOf, ClosingTagOf;
    CleanAtTag(s, t);
    CleanAtClose(s[t.end..], close, |body|);
    assert (body + (close + after))[|body| + |close|..] == after;
  }

  lemma Regroup(a: string, b: string, c: string, d: string, e: string)
    ensures a + b + c + d + e == a + (b + (c + (d + e)))
  {
  }

  lemma Flatten(a: string, name: string, c: string, d: string)
    ensures a + "<" + name + ">" + c + "</" + name + ">" + d == a + ("<" + name + ">") + c + ("</" + name + ">") + d
  {
    assert a + "<" + name + ">" == a + ("<" + name + ">");
    var x := a + ("<" + name + ">") + c;
    assert x + "</" + name + ">" == x + ("</" + name + ">");
  }

  /** A block that is never closed is dropped to the end. */
  lemma UnclosedBlockIsDropped(before: string, name: string, body: string)
    requires !HoldsTag(before) && IsWrittenName(name)
    requires forall j: nat :: !OccursAt(body, "</" + name + ">", j)
    ensures Clean(before + ("<" + name + ">" + body)) == before
  {
    hide HoldsTag, IsWrittenTag, OccursAt, Clean, CleanAfterClose, FindOpen;
    FirstTag(before, name, body);
    assert ClosingTagOf(name) == "</" + name + ">";
    CleanAtTag(before + ("<" + name + ">" + body), Tag(|before|, |before| + |name| + 2));
    CleanAtEnd(body, Some("</" + name + ">"));
    assert before + "" == before;
  }

  lemma WithoutOpenNoTag(s: string)
    requires '<' !in s
    ensures !HoldsTag(s)
  {
    hide OpenTagAt, IsWrittenTag;
    forall i: nat, e: nat ensures !OpenTagAt(s, i, e) {
      if OpenTagAt(s, i, e) { OpenTagBounds(s, i, e); }
    }
    NoTagIsFound(s);
  }

  lemma WithoutCloseNoTag(s: string)
    requires '>' !in s
    ensures !HoldsTag(s)
  {
    hide OpenTagAt, IsWrittenTag;
    forall i: nat, e: nat ensures !OpenTagAt(s, i, e) {
      if OpenTagAt(s, i, e) { OpenTagBounds(s, i, e); }
    }
    NoTagIsFound(s);
  }

  /** A block inside a tag: what is left is that tag, and a second pass removes it. */
  lemma RejoinedTagIsLeft()
    ensures Clean("<ip_rem" + "<ip_reminder>" + "</ip_reminder>" + "inder>") == "<ip_reminder>"
    ensures Clean("<ip_reminder>") == ""
  {
    hide Clean, HoldsTag;
    var name, none := "ip_reminder", "";
    assert "<" + name + ">" == "<ip_reminder>" && "</" + name + ">" == "</ip_reminder>";
    WithoutCloseNoTag("<ip_rem");
    WithoutOpenNoTag("inder>");
    WithoutOpenNoTag(none);
    assert forall j: nat :: !OccursAt(none, "</" + name + ">", j);
    BlockIsDropped("<ip_rem", name, none, "inder>");
    assert "<ip_rem" + "<" + name + ">" + none + "</" + name + ">" + "inder>"
        == "<ip_rem" + "<ip_reminder>" + "</ip_reminder>" + "inder>" by { Flatten("<ip_rem", name, none, "inder>"); }
    assert "<ip_rem" + "inder>" == "<ip_reminder>";
    UnclosedBlockIsDropped(none, name, none);
    assert none + ("<" + name + ">" + none) == "<ip_reminder>";
  }
}
