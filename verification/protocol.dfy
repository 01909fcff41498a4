/** Engine messages: flat JSON objects, with the property lookup and spread of JavaScript. */
module Messages {
  import opened Options
  import Decimal

  datatype Value = Str(s: string) | Num(n: nat) | Null

  /** An object as its properties in insertion order. */
  type Message = seq<(string, Value)>

  function Get(m: Message, key: string): Option<Value> {
    if m == [] then None else if m[0].0 == key then Some(m[0].1) else Get(m[1..], key)
  }

  function Put(m: Message, key: string, value: Value): Message {
    if m == [] then [(key, value)]
    else if m[0].0 == key then [(key, value)] + m[1..]
    else [m[0]] + Put(m[1..], key, value)
  }

  /** `a ?? b` */
  function Or(a: Option<Value>, b: Value): Value {
    if a.None? || a.value.Null? then b else a.value
  }

  /** A value appended to a string. */
  function Shown(v: Value): string {
    match v case Str(s) => s case Num(n) => Decimal.Print(n) case Null => "null"
  }

  /** `{ ...base, ...m }` */
  function Spread(base: Message, m: Message): Message
    decreases |m|
  {
    if m == [] then base else Spread(Put(base, m[0].0, m[0].1), m[1..])
  }

  predicate DistinctKeys(m: Message) {
    forall i, j | 0 <= i < j < |m| :: m[i].0 != m[j].0
  }

  lemma {:induction false} PutFresh(m: Message, key: string, value: Value)
    requires forall i | 0 <= i < |m| :: m[i].0 != key
    ensures Put(m, key, value) == m + [(key, value)]
  {
    if m != [] {
      assert m[1..] + [(key, value)] == (m + [(key, value)])[1..];
      PutFresh(m[1..], key, value);
    }
  }

  lemma {:induction false} PutGet(m: Message, key: string, value: Value, other: string)
    ensures Get(Put(m, key, value), other) == if other == key then Some(value) else Get(m, other)
  {
    if m != [] && m[0].0 != key {
      PutGet(m[1..], key, value, other);
    } else if m != [] {
      assert ([(key, value)] + m[1..])[1..] == m[1..];
    }
  }

  lemma {:induction false} NotThere(m: Message, key: string)
    requires forall i | 0 <= i < |m| :: m[i].0 != key
    ensures Get(m, key) == None
  {
    if m != [] { NotThere(m[1..], key); }
  }

  /** A spread object has its own properties and, where it has none, those spread before. */
  lemma {:induction false} SpreadGet(base: Message, m: Message, key: string)
    requires DistinctKeys(m)
    ensures Get(Spread(base, m), key) == if Get(m, key).Some? then Get(m, key) else Get(base, key)
    decreases |m|
  {
    if m != [] {
      PutGet(base, m[0].0, m[0].1, key);
      SpreadGet(Put(base, m[0].0, m[0].1), m[1..], key);
      if m[0].0 == key { NotThere(m[1..], key); }
    }
  }

  lemma {:induction false} SpreadFresh(base: Message, m: Message)
    requires DistinctKeys(base + m)
    ensures Spread(base, m) == base + m
    decreases |m|
  {
    if m == [] {
      assert base + m == base;
    } else {
      forall i | 0 <= i < |base| ensures base[i].0 != m[0].0 {
        assert (base + m)[i] == base[i] && (base + m)[|base|] == m[0];
      }
      PutFresh(base, m[0].0, m[0].1);
      assert base + [m[0]] + m[1..] == base + m;
      SpreadFresh(base + [m[0]], m[1..]);
    }
  }
}

/** packages/engine/src/protocol.js: the NDJSON codec and its buffered splitter. */
module Protocol {
  import opened Options
  import opened Text
  import opened Messages
  import Decimal

  const VERSION := 1

  /** `JSON.stringify` and `JSON.parse`; None when parsing throws. */
  datatype Json = Json(stringify: Message -> string, parse: string -> Option<Message>)

  function Versioned(m: Message): Message {
    Spread([("v", Num(VERSION))], m)
  }

  function Encode(json: Json, m: Message): string {
    json.stringify(Versioned(m)) + "\n"
  }

  function ErrorMessage(text: string): Message {
    [("type", Str("error")), ("message", Str(text))]
  }

  /** What a version that does not fit is called. */
  function Mismatch(m: Message): string {
    "protocol version mismatch: expected " + Decimal.Print(VERSION) + ", got "
    + (match Get(m, "v") case Some(v) => Shown(v) case None => "undefined")
  }

  /** `decode`: None for a blank line; a message of type `error` for bad JSON or a wrong version. */
  function Decode(json: Json, line: string): Option<Message> {
    var trimmed := Trim(line);
    if trimmed == "" then None
    else match json.parse(trimmed)
      case None => Some(ErrorMessage("bad ndjson") + [("raw", Str(trimmed))])
      case Some(m) =>
        if Get(m, "v") != Some(Num(VERSION)) then Some(ErrorMessage(Mismatch(m))) else Some(m)
  }

  function DecodeLines(json: Json, lines: seq<string>): seq<Message> {
    if lines == [] then []
    else (match Decode(json, lines[0]) case None => [] case Some(m) => [m]) + DecodeLines(json, lines[1..])
  }

  /** What the splitter yields for the complete lines of a text. */
  function MessagesIn(json: Json, text: string): seq<Message> {
    DecodeLines(json, SplitBy(text, "\n").parts)
  }

  class NdjsonSplitter {
    const json: Json
    var buf: string

    constructor (json: Json)
      ensures this.json == json && buf == ""
    {
      this.json := json;
      buf := "";
    }

    method Push(chunk: string) returns (msgs: seq<Message>)
      modifies this
      ensures msgs == MessagesIn(json, old(buf) + chunk)
      ensures buf == SplitBy(old(buf) + chunk, "\n").rest
    {
      ghost var done: seq<string> := [];
      buf := buf + chunk;
      msgs := [];
      var idx := IndexOf(buf, "\n");
      while idx.Some?
        invariant idx == IndexOf(buf, "\n")
        invariant SplitBy(old(buf) + chunk, "\n") == SplitBy(buf, "\n").Prepend(done)
        invariant msgs == DecodeLines(json, done)
        decreases |buf|
      {
        var line := buf[..idx.value];
        SplitBy(buf[idx.value + 1..], "\n").PrependTwice(done, [line]);
        DecodeLinesAppend(json, done, [line]);
        assert DecodeLines(json, [line]) == if Decode(json, line).Some? then [Decode(json, line).value] else [];
        done := done + [line];
        buf := buf[idx.value + 1..];
        var msg := Decode(json, line);
        if msg.Some? {
          msgs := msgs + [msg.value];
        }
        idx := IndexOf(buf, "\n");
      }
      assert done + [] == done;
    }
  }

  lemma {:induction false} DecodeLinesAppend(json: Json, a: seq<string>, b: seq<string>)
    ensures DecodeLines(json, a + b) == DecodeLines(json, a) + DecodeLines(json, b)
  {
    if a == [] {
      assert a + b == b;
    } else {
      assert (a + b)[1..] == a[1..] + b;
      DecodeLinesAppend(json, a[1..], b);
    }
  }

  lemma NothingComplete(json: Json, buf: string)
    requires '\n' !in buf
    ensures MessagesIn(json, buf) == []
  {
    hide SplitBy, OccursAt;
    NoNewline(buf);
    SplitNone(buf, "\n");
  }

  /** Messages of a text cut in two: those complete in the first part, then those of what is left. */
  lemma MessagesAppend(json: Json, a: string, b: string)
    ensures var split := SplitBy(a, "\n");
            MessagesIn(json, a + b) == MessagesIn(json, a) + MessagesIn(json, split.rest + b)
            && SplitBy(a + b, "\n").rest == SplitBy(split.rest + b, "\n").rest
  {
    SplitAppend(a, b, "\n");
    DecodeLinesAppend(json, SplitBy(a, "\n").parts, SplitBy(SplitBy(a, "\n").rest + b, "\n").parts);
  }

  /** A run of `push` calls from a given buffer. */
  function PushAll(json: Json, buf: string, chunks: seq<string>): (seq<Message>, string)
    decreases |chunks|
  {
    if chunks == [] then ([], buf)
    else
      var text := buf + chunks[0];
      var (later, rest) := PushAll(json, SplitBy(text, "\n").rest, chunks[1..]);
      (MessagesIn(json, text) + later, rest)
  }

  /** Chunk boundaries do not matter, and what stays buffered never contains a newline. */
  lemma {:induction false} PushAllIsOnePush(json: Json, buf: string, chunks: seq<string>)
    requires '\n' !in buf
    ensures PushAll(json, buf, chunks)
        == (MessagesIn(json, buf + Concat(chunks)), SplitBy(buf + Concat(chunks), "\n").rest)
    ensures '\n' !in PushAll(json, buf, chunks).1
    decreases |chunks|
  {
    hide SplitBy, MessagesIn;
    NoNewline(buf);
    if chunks == [] {
      NothingComplete(json, buf);
      assert buf + "" == buf;
      SplitNone(buf, "\n");
    } else {
      var rest := SplitBy(buf + chunks[0], "\n").rest;
      NoNewline(rest);
      PushAllIsOnePush(json, rest, chunks[1..]);
      MessagesAppend(json, buf + chunks[0], Concat(chunks[1..]));
      assert buf + chunks[0] + Concat(chunks[1..]) == buf + Concat(chunks);
    }
  }

  /** A message sent without a version is stamped with version 1, and keeps its properties. */
  lemma Stamped(m: Message, key: string)
    requires DistinctKeys(m)
    ensures Get(Versioned(m), key)
         == if Get(m, key) != None then Get(m, key) else if key == "v" then Some(Num(1)) else None
  {
    SpreadGet([("v", Num(1))], m, key);
  }

  // ---------- What a line decodes to ----------

  predicate AllSpace(s: string) {
    forall c | c in s :: IsSpace(c)
  }

  /** A line, without the white space around it, is parsed; what does not parse, and an object of another version
      than 1, becomes an error message. */
  lemma DecodeIs(json: Json, before: string, text: string, after: string)
    requires AllSpace(before) && AllSpace(after)
    requires text != "" && !IsSpace(text[0]) && !IsSpace(text[|text| - 1])
    ensures Decode(json, before + text + after)
         == match json.parse(text)
            case None => Some([("type", Str("error")), ("message", Str("bad ndjson")), ("raw", Str(text))])
            case Some(m) =>
              if Get(m, "v") == Some(Num(1)) then Some(m)
              else
                Some([("type", Str("error")),
                      ("message", Str("protocol version mismatch: expected 1, got "
                                      + match Get(m, "v")
                                        case None => "undefined" case Some(Null) => "null"
                                        case Some(Str(s)) => s case Some(Num(n)) => Decimal.Print(n)))])
  {
    hide Get;
    TrimIs(before, text, after);
    var error: Message := [("type", Str("error")), ("message", Str("bad ndjson"))];
    assert error + [("raw", Str(text))] == [error[0], error[1], ("raw", Str(text))];
    assert Decimal.Print(1) == "1";
    assert "protocol version mismatch: expected " + "1" + ", got " == "protocol version mismatch: expected 1, got ";
  }

  /** Nothing is yielded for a line of white space. */
  lemma BlankLineDecodes(json: Json, line: string)
    requires AllSpace(line)
    ensures Decode(json, line) == None
  {
    AllTrimmed(line);
  }

  // ---------- Round trip ----------

  /** What the round trip needs of the JSON functions on one object. */
  predicate RoundTrips(json: Json, m: Message) {
    var text := json.stringify(m);
    text != "" && Trim(text) == text && '\n' !in text && json.parse(text) == Some(m)
  }

  predicate Sendable(m: Message) {
    DistinctKeys(m) && forall i | 0 <= i < |m| :: m[i].0 != "v"
  }

  function EncodeAll(json: Json, msgs: seq<Message>): string {
    if msgs == [] then "" else Encode(json, msgs[0]) + EncodeAll(json, msgs[1..])
  }

  function WithVersion(msgs: seq<Message>): seq<Message> {
    seq(|msgs|, i requires 0 <= i < |msgs| => [("v", Num(VERSION))] + msgs[i])
  }

  lemma DecodeEncoded(json: Json, m: Message)
    requires Sendable(m) && RoundTrips(json, [("v", Num(VERSION))] + m)
    ensures Versioned(m) == [("v", Num(VERSION))] + m
    ensures Decode(json, json.stringify(Versioned(m))) == Some([("v", Num(VERSION))] + m)
  {
    SpreadFresh([("v", Num(VERSION))], m);
  }

  lemma {:induction false} MessagesOfEncoded(json: Json, msgs: seq<Message>)
    requires forall m | m in msgs :: Sendable(m) && RoundTrips(json, [("v", Num(VERSION))] + m)
    ensures MessagesIn(json, EncodeAll(json, msgs)) == WithVersion(msgs)
    ensures SplitBy(EncodeAll(json, msgs), "\n").rest == ""
  {
    hide SplitBy;
    if msgs == [] {
      NoNewline("");
      SplitNone("", "\n");
    } else {
      var m, rest := msgs[0], EncodeAll(json, msgs[1..]);
      assert m in msgs;
      DecodeEncoded(json, m);
      MessagesOfEncoded(json, msgs[1..]);
      var line := json.stringify(Versioned(m));
      FirstNewline(line, rest);
      var text := line + "\n" + rest;
      SplitSome(text, "\n", |line|);
      assert text[..|line|] == line && text[|line| + 1..] == rest;
      DecodeLinesAppend(json, [line], SplitBy(rest, "\n").parts);
      assert DecodeLines(json, [line]) == [[("v", Num(VERSION))] + m];
      assert WithVersion(msgs) == [[("v", Num(VERSION))] + m] + WithVersion(msgs[1..]);
    }
  }

  /** However the concatenated encodings are cut, the splitter yields exactly the messages sent,
      stamped with the version, in order, and ends with an empty buffer. */
  lemma NdjsonRoundTrip(json: Json, msgs: seq<Message>, chunks: seq<string>)
    requires forall m | m in msgs :: Sendable(m) && RoundTrips(json, [("v", Num(VERSION))] + m)
    requires Concat(chunks) == EncodeAll(json, msgs)
    ensures PushAll(json, "", chunks) == (WithVersion(msgs), "")
  {
    MessagesOfEncoded(json, msgs);
    PushAllIsOnePush(json, "", chunks);
    assert "" + Concat(chunks) == Concat(chunks);
  }
}

/** A concrete codec for flat objects in the compact form of `JSON.stringify`, escaping strings as
    section 7 of RFC 8259 requires, and a parser for that form. */
module FlatJson {
  import opened Options
  import opened Messages
  import opened Decimal
  import Protocol
  import Text

  function HexDigit(n: nat): (c: char)
    requires n < 16
    ensures HexValue(c) == Some(n) && ' ' <= c
  {
    if n < 10 then '0' + n as char else 'a' + (n - 10) as char
  }

  function EscapeChar(c: char): string {
    if c == '"' then "\\\"" else if c == '\\' then "\\\\"
    else if c == '\U{0008}' then "\\b" else if c == '\U{000C}' then "\\f"
    else if c == '\n' then "\\n" else if c == '\r' then "\\r" else if c == '\t' then "\\t"
    else if c < ' ' then "\\u00" + [HexDigit(c as nat / 16), HexDigit(c as nat % 16)]
    else [c]
  }

  function Escape(s: string): string {
    if s == "" then "" else EscapeChar(s[0]) + Escape(s[1..])
  }

  function HexValue(c: char): Option<nat> {
    if '0' <= c <= '9' then Some((c - '0') as nat)
    else if 'a' <= c <= 'f' then Some((c - 'a') as nat + 10)
    else if 'A' <= c <= 'F' then Some((c - 'A') as nat + 10)
    else None
  }

  function Unicode(s: string): Option<char>
    requires |s| == 4
  {
    match (HexValue(s[0]), HexValue(s[1]), HexValue(s[2]), HexValue(s[3]))
    case (Some(a), Some(b), Some(c), Some(d)) =>
      var code := 4096 * a + 256 * b + 16 * c + d;
      if code < 0xD800 || 0xE000 <= code < 0x10000 then Some(code as char) else None
    case _ => None
  }

  /** The character after a backslash, and how many characters the escape took. */
  function Unescape(s: string): (r: Option<(char, nat)>)
    ensures r.Some? ==> 0 < r.value.1 <= |s|
  {
    if s == "" then None
    else match s[0]
      case '"' => Some(('"', 1))
      case '\\' => Some(('\\', 1))
      case '/' => Some(('/', 1))
      case 'b' => Some(('\U{0008}', 1))
      case 'f' => Some(('\U{000C}', 1))
      case 'n' => Some(('\n', 1))
      case 'r' => Some(('\r', 1))
      case 't' => Some(('\t', 1))
      case 'u' => if |s| < 5 then None else (match Unicode(s[1..5]) case None => None case Some(c) => Some((c, 5)))
      case _ => None
  }

  /** The string up to the closing quote, and the text after it. */
  function ParseChars(s: string): (r: Option<(string, string)>)
    ensures r.Some? ==> |r.value.1| < |s|
    decreases |s|
  {
    if s == "" || s[0] < ' ' then None
    else if s[0] == '"' then Some(("", s[1..]))
    else if s[0] == '\\' then
      match Unescape(s[1..])
      case None => None
      case Some((c, n)) =>
        (match ParseChars(s[1 + n..]) case None => None case Some((t, rest)) => Some(([c] + t, rest)))
    else
      match ParseChars(s[1..])
      case None => None
      case Some((t, rest)) => Some(([s[0]] + t, rest))
  }

  lemma {:induction false} ParseEscaped(t: string, rest: string)
    ensures ParseChars(Escape(t) + "\"" + rest) == Some((t, rest))
    decreases |t|
  {
    hide EscapeChar, Unescape;
    var s := Escape(t) + "\"" + rest;
    if t == "" {
      assert s == "\"" + rest;
    } else {
      var c, e := t[0], EscapeChar(t[0]);
      EscapeShape(c);
      var tail := Escape(t[1..]) + "\"" + rest;
      assert s == e + tail;
      ParseEscaped(t[1..], rest);
      assert [c] + t[1..] == t;
      assert s[|e|..] == tail;
      if e[0] == '\\' {
        UnescapeEscaped(c, tail);
        assert s[1..] == e[1..] + tail;
        assert s[1 + (|e| - 1)..] == tail;
      }
    }
  }

  /** Either the character itself, harmless inside quotes, or an escape sequence. */
  lemma EscapeShape(c: char)
    ensures var e := EscapeChar(c);
            e != "" && (e[0] == '\\' || (e == [c] && ' ' <= c && c != '"'))
  {
  }

  /** Control characters are escaped, with two hexadecimal digits where there is no short form; so are quote and
      backslash, and nothing else. */
  lemma EscapesAre(c: char)
    ensures EscapeChar(c)
         == if c == '"' then "\\\"" else if c == '\\' then "\\\\"
            else if c == '\n' then "\\n" else if c == '\r' then "\\r" else if c == '\t' then "\\t"
            else if c == '\U{0008}' then "\\b" else if c == '\U{000C}' then "\\f"
            else if c < ' ' then "\\u00" + ["01"[c as nat / 16], "0123456789abcdef"[c as nat % 16]] else [c]
  {
    if c < ' ' { HexDigitIs(c as nat / 16); HexDigitIs(c as nat % 16); }
  }

  lemma HexDigitIs(n: nat)
    requires n < 16
    ensures HexDigit(n) == "0123456789abcdef"[n]
  {
  }

  lemma UnescapeEscaped(c: char, tail: string)
    requires EscapeChar(c)[0] == '\\'
    ensures Unescape(EscapeChar(c)[1..] + tail) == Some((c, |EscapeChar(c)| - 1))
  {
    var e := EscapeChar(c);
    if |e| == 2 {
      assert e[1..] + tail == [e[1]] + tail;
    } else {
      var a, b := HexDigit(c as nat / 16), HexDigit(c as nat % 16);
      assert e == ['\\', 'u', '0', '0', a, b];
      HexUnescape(a, b, tail);
      assert e[1..] + tail == ['u', '0', '0', a, b] + tail;
    }
  }

  lemma HexUnescape(a: char, b: char, tail: string)
    requires HexValue(a).Some? && HexValue(b).Some?
    ensures Unescape(['u', '0', '0', a, b] + tail) == Some(((16 * HexValue(a).value + HexValue(b).value) as char, 5))
  {
    var s := ['u', '0', '0', a, b] + tail;
    assert s[1..5] == ['0', '0', a, b];
    assert HexValue('0') == Some(0);
  }

  function StringifyValue(v: Value): string {
    match v
    case Str(s) => "\"" + Escape(s) + "\""
    case Num(n) => Print(n)
    case Null => "null"
  }

  function StringifyMember(m: (string, Value)): string {
    "\"" + Escape(m.0) + "\":" + StringifyValue(m.1)
  }

  function StringifyMembers(m: Message): string {
    if m == [] then "}"
    else if |m| == 1 then StringifyMember(m[0]) + "}"
    else StringifyMember(m[0]) + "," + StringifyMembers(m[1..])
  }

  function Stringify(m: Message): string {
    "{" + StringifyMembers(m)
  }

  function ParseValue(s: string): (r: Option<(Value, string)>)
    ensures r.Some? ==> |r.value.1| < |s|
  {
    if s == "" then None
    else if s[0] == '"' then
      (match ParseChars(s[1..]) case None => None case Some((t, rest)) => Some((Str(t), rest)))
    else if "null" <= s then Some((Null, s[4..]))
    else
      var n := DigitPrefix(s);
      if n == 0 || Print(Decimal.Value(s[..n])) != s[..n] then None else Some((Num(Decimal.Value(s[..n])), s[n..]))
  }

  function ParseMember(s: string): (r: Option<((string, Value), string)>)
    ensures r.Some? ==> |r.value.1| < |s|
  {
    if s == "" || s[0] != '"' then None
    else match ParseChars(s[1..])
      case None => None
      case Some((key, afterKey)) =>
        if afterKey == "" || afterKey[0] != ':' then None
        else match ParseValue(afterKey[1..])
          case None => None
          case Some((value, rest)) => Some(((key, value), rest))
  }

  /** Members up to the closing brace, which must end the text. */
  function ParseMembers(s: string, acc: Message): Option<Message>
    decreases |s|
  {
    match ParseMember(s)
    case None => None
    case Some((member, rest)) =>
      var acc' := Put(acc, member.0, member.1);
      if rest == "}" then Some(acc')
      else if rest != "" && rest[0] == ',' then ParseMembers(rest[1..], acc')
      else None
  }

  function Parse(s: string): Option<Message> {
    if s == "{}" then Some([])
    else if s != "" && s[0] == '{' then ParseMembers(s[1..], [])
    else None
  }

  lemma ParseStringified(v: Value, rest: string)
    requires rest != "" && !IsDigit(rest[0])
    ensures ParseValue(StringifyValue(v) + rest) == Some((v, rest))
  {
    hide ParseChars, Escape, Print;
    var s := StringifyValue(v) + rest;
    match v
    case Str(t) =>
      assert s[1..] == Escape(t) + "\"" + rest;
      ParseEscaped(t, rest);
    case Null =>
      assert s[..4] == "null" && s[4..] == rest;
    case Num(n) =>
      ParsePrinted(n, rest);
  }

  lemma ParsePrinted(n: nat, rest: string)
    requires rest != "" && !IsDigit(rest[0])
    ensures ParseValue(Print(n) + rest) == Some((Num(n), rest))
  {
    hide ParseChars, Print;
    var s := Print(n) + rest;
    DigitPrefixIs(Print(n), rest);
    assert s[..|Print(n)|] == Print(n) && s[|Print(n)|..] == rest;
    ValueOfPrint(n);
    assert s[0] == Print(n)[0] && s[0] in Print(n);
    assert "null"[0] == 'n';
  }

  lemma ParseMemberBack(m: (string, Value), rest: string)
    requires rest != "" && !IsDigit(rest[0])
    ensures ParseMember(StringifyMember(m) + rest) == Some((m, rest))
  {
    hide ParseChars, Escape, StringifyValue, ParseValue;
    var s := StringifyMember(m) + rest;
    var afterKey := ":" + (StringifyValue(m.1) + rest);
    assert s[1..] == Escape(m.0) + "\"" + afterKey;
    ParseEscaped(m.0, afterKey);
    assert afterKey[1..] == StringifyValue(m.1) + rest;
    ParseStringified(m.1, rest);
  }

  lemma {:induction false} DigitPrefixIs(d: string, rest: string)
    requires AllDigits(d) && rest != "" && !IsDigit(rest[0])
    ensures DigitPrefix(d + rest) == |d|
  {
    if d == "" {
      assert d + rest == rest;
    } else {
      assert d[0] in d;
      assert (d + rest)[1..] == d[1..] + rest;
      DigitPrefixIs(d[1..], rest);
    }
  }

  lemma {:induction false} ParseMembersBack(m: Message, acc: Message)
    requires m != [] && DistinctKeys(acc + m)
    ensures ParseMembers(StringifyMembers(m), acc) == Some(acc + m)
    decreases |m|
  {
    hide ParseMember, StringifyMember, DistinctKeys;
    var more := if |m| == 1 then "}" else "," + StringifyMembers(m[1..]);
    assert StringifyMembers(m) == StringifyMember(m[0]) + more by {
      if |m| != 1 {
        assert StringifyMember(m[0]) + "," + StringifyMembers(m[1..])
            == StringifyMember(m[0]) + ("," + StringifyMembers(m[1..]));
      }
    }
    ParseMemberBack(m[0], more);
    PutNextMember(acc, m);
    assert acc + [m[0]] + m[1..] == acc + m;
    if |m| == 1 {
      assert acc + [m[0]] == acc + m;
    } else {
      assert more[1..] == StringifyMembers(m[1..]);
      ParseMembersBack(m[1..], acc + [m[0]]);
    }
  }

  lemma PutNextMember(acc: Message, m: Message)
    requires m != [] && DistinctKeys(acc + m)
    ensures Put(acc, m[0].0, m[0].1) == acc + [m[0]]
  {
    forall i | 0 <= i < |acc| ensures acc[i].0 != m[0].0 {
      assert (acc + m)[i] == acc[i] && (acc + m)[|acc|] == m[0];
    }
    PutFresh(acc, m[0].0, m[0].1);
  }

  predicate Printable(s: string) {
    forall c | c in s :: ' ' <= c
  }

  lemma {:induction false} EscapedIsPrintable(s: string)
    ensures Printable(Escape(s))
  {
    if s != "" {
      EscapedIsPrintable(s[1..]);
      assert Printable(EscapeChar(s[0]));
    }
  }

  lemma MemberIsPrintable(m: (string, Value))
    ensures Printable(StringifyMember(m))
  {
    hide Escape, EscapeChar, Print;
    EscapedIsPrintable(m.0);
    match m.1
    case Str(s) => EscapedIsPrintable(s);
    case Num(n) => assert forall c | c in Print(n) :: IsDigit(c);
    case Null =>
  }

  lemma {:induction false} StringifiedIsPrintable(m: Message)
    ensures Printable(StringifyMembers(m)) && StringifyMembers(m) != ""
    ensures StringifyMembers(m)[|StringifyMembers(m)| - 1] == '}'
  {
    hide StringifyMember;
    if m != [] {
      MemberIsPrintable(m[0]);
      StringifiedIsPrintable(m[1..]);
    }
  }

  function Codec(): Protocol.Json {
    Protocol.Json(Stringify, Parse)
  }

  /** Every object with distinct property names survives this codec, on one line. */
  lemma CodecRoundTrips(m: Message)
    requires DistinctKeys(m)
    ensures Protocol.RoundTrips(Codec(), m)
  {
    hide StringifyMember, ParseMember, DistinctKeys;
    var s := Stringify(m);
    StringifiedIsPrintable(m);
    assert '\n' !in s;
    assert Text.Trim(s) == s;
    if m == [] {
      assert s == "{}";
    } else {
      assert s[1..] == StringifyMembers(m);
      assert [] + m == m;
      ParseMembersBack(m, []);
    }
  }

  lemma ThreeMembers(x: (string, Value), y: (string, Value), z: (string, Value))
    ensures Stringify([x, y, z])
         == "{" + (StringifyMember(x) + "," + (StringifyMember(y) + "," + (StringifyMember(z) + "}")))
  {
    hide StringifyMember;
    assert [x, y, z][1..] == [y, z] && [y, z][1..] == [z];
    assert StringifyMembers([y, z]) == StringifyMember(y) + "," + (StringifyMember(z) + "}");
    assert StringifyMember(y) + "," + (StringifyMember(z) + "}")
        == StringifyMember(y) + ("," + (StringifyMember(z) + "}"));
  }

  /** One message on the wire, member by member. */
  lemma LineOnTheWire()
    ensures Protocol.Encode(Codec(), [("s", Str("\"")), ("z", Null)])
         == "{" + ("\"v\":1" + "," + ("\"s\":\"\\\"\"" + "," + ("\"z\":null" + "}"))) + "\n"
  {
    hide StringifyMember, StringifyMembers;
    var m: Message := [("s", Str("\"")), ("z", Null)];
    SpreadFresh([("v", Num(1))], m);
    assert [("v", Num(1))] + m == [("v", Num(1)), ("s", Str("\"")), ("z", Null)];
    ThreeMembers(("v", Num(1)), ("s", Str("\"")), ("z", Null));
    NumberMember();
    QuoteMember();
    NullMember();
  }

  lemma NumberMember()
    ensures StringifyMember(("v", Num(1))) == "\"v\":1"
  {
    LetterMember("v", Num(1), "1");
  }

  lemma QuoteMember()
    ensures StringifyMember(("s", Str("\""))) == "\"s\":\"\\\"\""
  {
    LetterMember("s", Str("\""), "\"\\\"\"");
  }

  lemma NullMember()
    ensures StringifyMember(("z", Null)) == "\"z\":null"
  {
    LetterMember("z", Null, "null");
  }

  lemma LetterMember(key: string, value: Value, text: string)
    requires |key| == 1 && 'a' <= key[0] <= 'z' && StringifyValue(value) == text
    ensures StringifyMember((key, value)) == "\"" + key + "\":" + text
  {
    assert key[1..] == "" && EscapeChar(key[0]) == key;
    assert Escape(key) == key;
  }

  /** With this codec the wire round trip holds for all messages with distinct property names. */
  lemma WireRoundTrip(msgs: seq<Message>, chunks: seq<string>)
    requires forall m | m in msgs :: Protocol.Sendable(m)
    requires Text.Concat(chunks) == Protocol.EncodeAll(Codec(), msgs)
    ensures Protocol.PushAll(Codec(), "", chunks) == (Protocol.WithVersion(msgs), "")
  {
    forall m | m in msgs ensures Protocol.RoundTrips(Codec(), [("v", Num(Protocol.VERSION))] + m) {
      CodecRoundTrips([("v", Num(Protocol.VERSION))] + m);
    }
    Protocol.NdjsonRoundTrip(Codec(), msgs, chunks);
  }
}
