/** What single lines mean to the two Server-Sent-Events readers, spelled out. */
module SseLaws {
  import opened Options
  import opened Text
  import opened Sse

  /** A field line: a name, a colon, one space that does not count, and the value. */
  predicate IsField(line: string, name: string, value: string) {
    ':' !in name && (line == name + ": " + value || (line == name + ":" + value && (value == "" || value[0] != ' ')))
  }

  lemma FieldIsCut(line: string, name: string, value: string)
    requires IsField(line, name, value)
    ensures ParseField(line) == (name, value)
  {
    var c := |name|;
    assert line[c] == ':' && line[..c] == name;
    assert line[c..c + 1] == ":";
    assert forall j: nat | j < c :: line[j] == name[j] && name[j] in name;
    IndexOfIs(line, ":", c);
    assert line[c + 1..] == if line == name + ": " + value then " " + value else value;
    assert (" " + value)[1..] == value;
  }

  /** A line without a colon is a name with an empty value. */
  lemma NameAlone(line: string)
    requires ':' !in line
    ensures ParseField(line) == (line, "")
  {
    forall j: nat | j < |line| ensures !OccursAt(line, ":", j) {
      assert line[j..j + 1] == [line[j]] && line[j] in line;
    }
  }

  /** The line-based reader: an event name replaces the one before, data lines are collected, other fields and
      comments do nothing; a carriage return at the end of a line is dropped. */
  lemma FieldLineIsRead(p: Pending, line: string, name: string, value: string)
    requires IsField(line, name, value) && name != "" && line[|line| - 1] != '\r'
    ensures forall raw | raw == line || raw == line + "\r" ::
              ReadLine(p, raw) == ([], if name == "event" then Pending(Some(value), p.data)
                                       else if name == "data" then Pending(p.event, p.data + [value]) else p)
  {
    FieldIsCut(line, name, value);
    assert (line + "\r")[..|line|] == line;
    assert line[0] == name[0] && name[0] in name;
  }

  lemma CommentIsIgnored(p: Pending, text: string)
    ensures ReadLine(p, ":" + text) == ([], p)
  {
    var line := StripCr(":" + text);
    assert line[0] == ':';
  }

  /** A blank line yields what is pending, unless there is no data and no event name, or an empty one. */
  lemma BlankLineYields(p: Pending, line: string)
    requires line == "" || line == "\r"
    ensures p.data == [] && (p.event == None || p.event == Some("")) ==> ReadLine(p, line) == ([], p)
    ensures !(p.data == [] && (p.event == None || p.event == Some(""))) ==>
              ReadLine(p, line) == ([Event(match p.event case Some(name) => name case None => "message", Join(p.data))],
                                    Pending(None, []))
  {
    assert StripCr(line) == "";
  }

  /** Data lines are joined with a newline between every two of them. */
  lemma {:induction false} JoinIs(lines: seq<string>, last: string)
    ensures Join([]) == "" && Join([last]) == last
    ensures lines != [] ==> Join(lines + [last]) == Join(lines) + "\n" + last
  {
    if 1 < |lines| {
      JoinIs(lines[1..], last);
      assert (lines + [last])[1..] == lines[1..] + [last];
      assert lines[0] + "\n" + (Join(lines[1..]) + "\n" + last) == lines[0] + "\n" + Join(lines[1..]) + "\n" + last;
    } else if |lines| == 1 {
      assert (lines + [last])[1..] == [last] && lines[0] == (lines + [last])[0];
    }
  }

  /** The frame-based reader keeps the last event name, the last id and all data lines, and nothing else. */
  lemma FieldLineIsParsed(f: FrameFields, line: string, name: string, value: string)
    requires IsField(line, name, value)
    ensures FrameLine(f, line) == if name == "event" then FrameFields(value, f.id, f.data)
                                  else if name == "id" then FrameFields(f.event, Some(value), f.data)
                                  else if name == "data" then FrameFields(f.event, f.id, f.data + [value]) else f
  {
    FieldIsCut(line, name, value);
  }

  /** A block is a frame unless it is empty, opens with a comment or has no data; an event without a name is a
      `message`. */
  lemma FrameIs(raw: string)
    ensures var f := FrameLines(FrameFields("message", None, []), LinesOf(raw));
            FrameOf(raw) == if raw == "" || raw[0] == ':' || f.data == [] then None
                            else Some(Frame(Event(f.event, Join(f.data)), f.id))
  {
  }

  /** What a reader yields is the parsed data, or the raw text when parsing throws. */
  lemma DataIsParsed<V>(parse: Parse<V>, name: string, text: string)
    ensures ParseAll(parse, [Event(name, text)])
         == [Yielded(name, match parse(text) case Some(value) => Parsed(value) case None => Raw(text))]
  {
  }
}
