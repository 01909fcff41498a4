/** The text encodings of packages/auth/src/signed-request.js. */
module Base64Url {
  import opened Options

  type Byte = b: nat | b < 256
  type Sextet = k: nat | k < 64

  function CharOf(k: Sextet): char {
    if k < 26 then 'A' + k as char
    else if k < 52 then 'a' + (k - 26) as char
    else if k < 62 then '0' + (k - 52) as char
    else if k == 62 then '+' else '/'
  }

  function SextetOf(c: char): Option<Sextet> {
    if 'A' <= c <= 'Z' then Some((c - 'A') as nat)
    else if 'a' <= c <= 'z' then Some((c - 'a') as nat + 26)
    else if '0' <= c <= '9' then Some((c - '0') as nat + 52)
    else if c == '+' || c == '-' then Some(62)
    else if c == '/' || c == '_' then Some(63)
    else None
  }

  // How the bits of one to three bytes spread over sextets, and back.

  function First(a: Byte): Sextet { a / 4 }
  function Second(a: Byte, b: Byte): Sextet { a % 4 * 16 + b / 16 }
  function Third(b: Byte, c: Byte): Sextet { b % 16 * 4 + c / 64 }
  function Fourth(c: Byte): Sextet { c % 64 }

  function ByteOne(k: Sextet, l: Sextet): Byte { k * 4 + l / 16 }
  function ByteTwo(l: Sextet, m: Sextet): Byte { l % 16 * 16 + m / 4 }
  function ByteThree(m: Sextet, n: Sextet): Byte { m % 4 * 64 + n }

  function Pack(b: seq<Byte>): seq<Sextet> {
    if b == [] then []
    else if |b| == 1 then [First(b[0]), Second(b[0], 0)]
    else if |b| == 2 then [First(b[0]), Second(b[0], b[1]), Third(b[1], 0)]
    else [First(b[0]), Second(b[0], b[1]), Third(b[1], b[2]), Fourth(b[2])] + Pack(b[3..])
  }

  function Unpack(k: seq<Sextet>): seq<Byte> {
    if |k| < 2 then []
    else if |k| == 2 then [ByteOne(k[0], k[1])]
    else if |k| == 3 then [ByteOne(k[0], k[1]), ByteTwo(k[1], k[2])]
    else [ByteOne(k[0], k[1]), ByteTwo(k[1], k[2]), ByteThree(k[2], k[3])] + Unpack(k[4..])
  }

  /** How many padding characters the standard encoding ends with. */
  function PadCount(b: seq<Byte>): (p: nat)
    ensures p < 3
  {
    (3 - |b| % 3) % 3
  }

  /** `Buffer.toString('base64')` */
  function EncodeStd(b: seq<Byte>): string {
    Chars(Pack(b)) + Equals(PadCount(b))
  }

  function Chars(k: seq<Sextet>): (r: string)
    ensures |r| == |k| && forall i | 0 <= i < |k| :: r[i] == CharOf(k[i])
  {
    seq(|k|, i requires 0 <= i < |k| => CharOf(k[i]))
  }

  /** The characters of a text that stand for six bits; the others, padding included, are skipped. */
  function Sextets(s: string): seq<Sextet> {
    if s == "" then []
    else (match SextetOf(s[0]) case Some(k) => [k] case None => []) + Sextets(s[1..])
  }

  /** `Buffer.from(s, 'base64')` */
  function DecodeStd(s: string): seq<Byte> {
    Unpack(Sextets(s))
  }

  function UrlChar(c: char): char {
    if c == '+' then '-' else if c == '/' then '_' else c
  }

  function StdChar(c: char): char {
    if c == '-' then '+' else if c == '_' then '/' else c
  }

  function MapChars(f: char -> char, s: string): (r: string)
    ensures |r| == |s| && forall i | 0 <= i < |s| :: r[i] == f(s[i])
  {
    seq(|s|, i requires 0 <= i < |s| => f(s[i]))
  }

  /** `.replace(/=+$/, '')` */
  function StripPadding(s: string): string {
    if s != "" && s[|s| - 1] == '=' then StripPadding(s[..|s| - 1]) else s
  }

  function Equals(n: nat): (s: string)
    ensures |s| == n && forall i | 0 <= i < n :: s[i] == '='
  {
    seq(n, _ => '=')
  }

  function Encode(b: seq<Byte>): string {
    StripPadding(MapChars(UrlChar, EncodeStd(b)))
  }

  function Padded(s: string): string {
    MapChars(StdChar, s + Equals((4 - |s| % 4) % 4))
  }

  function Decode(s: string): seq<Byte> {
    DecodeStd(Padded(s))
  }

  // ---------- Round trip ----------

  lemma {:induction false} PackLength(b: seq<Byte>)
    ensures |Pack(b)| == |b| + (|b| + 2) / 3
    ensures (|Pack(b)| + PadCount(b)) % 4 == 0
  {
    hide First, Second, Third, Fourth, PadCount;
    GroupsOfThree(b);
    if 3 <= |b| {
      var n := |b[3..]|;
      PackLength(b[3..]);
      assert (n + 3 + 2) / 3 == (n + 2) / 3 + 1;
    }
  }

  lemma GroupsOfThree(b: seq<Byte>)
    ensures (|b| + (|b| + 2) / 3 + PadCount(b)) % 4 == 0
    ensures (|b| + (|b| + 2) / 3) % 4 != 1
  {
    var q, r := |b| / 3, |b| % 3;
    assert |b| == 3 * q + r;
    assert (|b| + 2) / 3 == if r == 0 then q else q + 1;
    assert |b| + (|b| + 2) / 3 == 4 * q + (if r == 0 then 0 else r + 1);
    assert PadCount(b) == if r == 0 then 0 else 3 - r;
  }

  lemma BitsBack(a: Byte, b: Byte, c: Byte)
    ensures ByteOne(First(a), Second(a, b)) == a
    ensures ByteTwo(Second(a, b), Third(b, c)) == b
    ensures ByteThree(Third(b, c), Fourth(c)) == c
  {
  }

  lemma {:induction false} UnpackInverts(b: seq<Byte>)
    ensures Unpack(Pack(b)) == b
  {
    hide First, Second, Third, Fourth, ByteOne, ByteTwo, ByteThree;
    if |b| == 1 {
      BitsBack(b[0], 0, 0);
    } else if |b| == 2 {
      BitsBack(b[0], b[1], 0);
    } else if 3 <= |b| {
      BitsBack(b[0], b[1], b[2]);
      UnpackInverts(b[3..]);
      assert Pack(b)[4..] == Pack(b[3..]);
      assert b == [b[0], b[1], b[2]] + b[3..];
    }
  }

  lemma CharBack(k: Sextet)
    ensures SextetOf(CharOf(k)) == Some(k) && CharOf(k) != '-' && CharOf(k) != '_' && CharOf(k) != '='
  {
  }

  lemma EqualsIsSkipped()
    ensures SextetOf('=').None?
  {
  }

  lemma {:induction false} SextetsOfChars(k: seq<Sextet>, p: nat)
    ensures Sextets(Chars(k) + Equals(p)) == k
    decreases |k| + p
  {
    hide CharOf, SextetOf;
    var s := Chars(k) + Equals(p);
    if k != [] {
      CharBack(k[0]);
      assert s[1..] == Chars(k[1..]) + Equals(p);
      SextetsOfChars(k[1..], p);
      assert [k[0]] + k[1..] == k;
    } else if p != 0 {
      EqualsIsSkipped();
      assert s[1..] == Chars([]) + Equals(p - 1);
      SextetsOfChars([], p - 1);
    }
  }

  lemma {:induction false} StripExact(s: string, p: nat)
    requires s == "" || s[|s| - 1] != '='
    ensures StripPadding(s + Equals(p)) == s
    decreases p
  {
    if p == 0 {
      assert s + Equals(0) == s;
    } else {
      assert (s + Equals(p))[..|s| + p - 1] == s + Equals(p - 1);
      StripExact(s, p - 1);
    }
  }

  /** The URL form is the standard form without its padding, in the URL-safe alphabet. */
  lemma EncodeIsStripped(b: seq<Byte>)
    ensures Encode(b) == MapChars(UrlChar, Chars(Pack(b)))
  {
    hide CharOf;
    var body := MapChars(UrlChar, Chars(Pack(b)));
    if body != "" { CharBack(Pack(b)[|body| - 1]); }
    assert MapChars(UrlChar, EncodeStd(b)) == body + Equals(PadCount(b));
    StripExact(body, PadCount(b));
  }

  /** The computed padding restores exactly what was stripped. */
  lemma PaddingRestored(b: seq<Byte>)
    ensures Padded(Encode(b)) == EncodeStd(b)
  {
    hide CharOf, Encode, Pack, PadCount;
    EncodeIsStripped(b);
    PackLength(b);
    var k, s, p := Pack(b), Encode(b), PadCount(b);
    PadIsMissing(|s|, p);
    var padded, std := Padded(s), EncodeStd(b);
    assert |padded| == |std| == |k| + p;
    forall i | 0 <= i < |padded| ensures padded[i] == std[i] {
      if i < |k| { CharBack(k[i]); }
    }
  }

  lemma PadIsMissing(n: nat, p: nat)
    requires p < 4 && (n + p) % 4 == 0
    ensures (4 - n % 4) % 4 == p
  {
  }

  /** base64url round trip for every byte string (section 5 of RFC 4648). */
  lemma RoundTrip(b: seq<Byte>)
    ensures Decode(Encode(b)) == b
  {
    PaddingRestored(b);
    SextetsOfChars(Pack(b), PadCount(b));
    UnpackInverts(b);
  }

  /** The text uses only the URL-safe alphabet, and its length is never 1 modulo 4. */
  lemma EncodedAlphabet(b: seq<Byte>)
    ensures var s := Encode(b);
            && |s| % 4 != 1
            && forall i | 0 <= i < |s| :: InUrlAlphabet(s[i])
  {
    hide Encode, CharOf, UrlChar, Pack;
    EncodeIsStripped(b);
    PackLength(b);
    GroupsOfThree(b);
    forall i | 0 <= i < |Encode(b)| ensures InUrlAlphabet(Encode(b)[i]) { UrlCharFits(Pack(b)[i]); }
  }

  // ---------- The text itself ----------

  /** The URL-safe alphabet in order. */
  function Letter(k: nat): char
    requires k < 64
  {
    if k < 26 then "ABCDEFGHIJKLMNOPQRSTUVWXYZ"[k]
    else if k < 52 then "abcdefghijklmnopqrstuvwxyz"[k - 26]
    else "0123456789-_"[k - 52]
  }

  lemma UpperLetter(k: nat)
    requires k < 26
    ensures "ABCDEFGHIJKLMNOPQRSTUVWXYZ"[k] == 'A' + k as char
  {
  }

  lemma LowerLetter(k: nat)
    requires k < 26
    ensures "abcdefghijklmnopqrstuvwxyz"[k] == 'a' + k as char
  {
  }

  lemma LetterOf(k: Sextet)
    ensures UrlChar(CharOf(k)) == Letter(k)
  {
    if k < 26 {
      UpperLetter(k);
    } else if k < 52 {
      LowerLetter(k - 26);
    }
  }

  /** Three bytes as one number of 24 bits. */
  function Bits(a: nat, b: nat, c: nat): nat {
    65_536 * a + 256 * b + c
  }

  /** The number is written as four digits to the base 64. */
  lemma BitsAre(a: Byte, b: Byte, c: Byte)
    ensures var n := Bits(a, b, c);
            && First(a) == n / 262_144 && Second(a, b) == n / 4_096 % 64
            && Third(b, c) == n / 64 % 64 && Fourth(c) == n % 64
  {
    DigitsAre(First(a), Second(a, b), Third(b, c), Fourth(c), Bits(a, b, c));
  }

  lemma DigitsAre(w: nat, x: nat, y: nat, z: nat, n: nat)
    requires x < 64 && y < 64 && z < 64 && n == 262_144 * w + 4_096 * x + 64 * y + z
    ensures w == n / 262_144 && x == n / 4_096 % 64 && y == n / 64 % 64 && z == n % 64
  {
    var p := 64 * w + x;
    var q := 64 * p + y;
    assert n == 64 * q + z && n == 4_096 * p + (64 * y + z) && n == 262_144 * w + (4_096 * x + 64 * y + z);
    LastDigit(q, z);
    LastDigit(p, y);
    LastDigit(w, x);
    HighPart(4_096, p, 64 * y + z);
    HighPart(262_144, w, 4_096 * x + 64 * y + z);
  }

  lemma LastDigit(q: nat, r: nat)
    requires r < 64
    ensures (64 * q + r) % 64 == r && (64 * q + r) / 64 == q
  {
  }

  lemma HighPart(d: nat, q: nat, r: nat)
    requires r < d && (d == 4_096 || d == 262_144)
    ensures (d * q + r) / d == q
  {
  }

  /** The text of any bytes, three at a time: section 4 of RFC 4648 with the alphabet of section 5, no padding. */
  lemma TextIs(b: seq<Byte>)
    ensures Encode([]) == ""
    ensures |b| == 1 ==> var n := Bits(b[0], 0, 0); Encode(b) == [Letter(n / 262_144 % 64), Letter(n / 4_096 % 64)]
    ensures |b| == 2 ==> var n := Bits(b[0], b[1], 0);
              Encode(b) == [Letter(n / 262_144 % 64), Letter(n / 4_096 % 64), Letter(n / 64 % 64)]
    ensures 3 <= |b| ==> var n := Bits(b[0], b[1], b[2]);
              Encode(b) == [Letter(n / 262_144 % 64), Letter(n / 4_096 % 64), Letter(n / 64 % 64), Letter(n % 64)]
                           + Encode(b[3..])
  {
    hide CharOf, UrlChar, Encode, First, Second, Third, Fourth, Letter, Bits;
    EncodeIsStripped(b);
    EncodeIsStripped([]);
    forall k: Sextet ensures UrlChar(CharOf(k)) == Letter(k) { LetterOf(k); }
    if |b| == 1 {
      BitsAre(b[0], 0, 0);
    } else if |b| == 2 {
      BitsAre(b[0], b[1], 0);
    } else if 3 <= |b| {
      BitsAre(b[0], b[1], b[2]);
      EncodeIsStripped(b[3..]);
    }
  }

  predicate InUrlAlphabet(c: char) {
    'A' <= c <= 'Z' || 'a' <= c <= 'z' || '0' <= c <= '9' || c == '-' || c == '_'
  }

  lemma UrlCharFits(k: Sextet)
    ensures InUrlAlphabet(UrlChar(CharOf(k)))
  {
  }
}

module Canonical {
  import opened Decimal
  import opened Text

  datatype Signed = Signed(httpMethod: string, path: string, createdAt: int, nonce: string, bodyHashHex: string)

  function CanonicalString(r: Signed): string {
    Upper(r.httpMethod) + "\n" + (r.path + "\n" + (PrintInt(r.createdAt) + "\n" + (r.nonce + "\n" + r.bodyHashHex)))
  }

  lemma FiveLines(a: string, b: string, c: string, d: string, e: string)
    ensures a + "\n" + (b + "\n" + (c + "\n" + (d + "\n" + e))) + "\n" == Unlines([a, b, c, d, e])
  {
    var lines := [a, b, c, d, e];
    assert lines[1..] == [b, c, d, e] && [b, c, d, e][1..] == [c, d, e];
    assert [c, d, e][1..] == [d, e] && [d, e][1..] == [e];
    assert Unlines([e]) == e + "\n";
    LineAdded(d, e, "\n");
    assert Unlines([d, e]) == d + "\n" + e + "\n";
    LineAdded(c, d + "\n" + e, "\n");
    assert Unlines([c, d, e]) == c + "\n" + (d + "\n" + e) + "\n";
    LineAdded(b, c + "\n" + (d + "\n" + e), "\n");
    assert Unlines([b, c, d, e]) == b + "\n" + (c + "\n" + (d + "\n" + e)) + "\n";
    LineAdded(a, b + "\n" + (c + "\n" + (d + "\n" + e)), "\n");
  }

  lemma LineAdded(a: string, b: string, c: string)
    ensures a + "\n" + b + c == a + "\n" + (b + c)
  {
  }

  /** The five fields, one to a line, the method in upper case and the time in decimal. */
  lemma FieldsAreLines(r: Signed)
    requires '\n' !in r.httpMethod && '\n' !in r.path && '\n' !in r.nonce && '\n' !in r.bodyHashHex
    ensures SplitBy(CanonicalString(r) + "\n", "\n")
         == Split([Upper(r.httpMethod), r.path, PrintInt(r.createdAt), r.nonce, r.bodyHashHex], "")
  {
    hide SplitBy, PrintInt;
    var lines := [Upper(r.httpMethod), r.path, PrintInt(r.createdAt), r.nonce, r.bodyHashHex];
    PrintIntHasNoNewline(r.createdAt);
    assert forall i | 0 <= i < |r.httpMethod| :: r.httpMethod[i] in r.httpMethod;
    FiveLines(Upper(r.httpMethod), r.path, PrintInt(r.createdAt), r.nonce, r.bodyHashHex);
    SplitUnlines(lines);
  }

  /** The text for a request in lower case, with a time before 1970. */
  lemma CanonicalExample(hash: string)
    ensures CanonicalString(Signed("post", "/a", -17, "n", hash))
         == "POST" + "\n" + ("/a" + "\n" + ("-17" + "\n" + ("n" + "\n" + hash)))
  {
    assert Upper("post") == "POST";
    assert Print(17) == Print(1) + "7" == "17" && "-" + "17" == "-17";
  }

  lemma CutAtNewline(a: string, b: string, c: string, d: string)
    requires '\n' !in a && '\n' !in c
    requires a + "\n" + b == c + "\n" + d
    ensures a == c && b == d
  {
    var s := a + "\n" + b;
    assert s[|a|] == '\n' && s[|c|] == '\n';
    assert forall i | 0 <= i < |a| :: s[i] == a[i];
    assert forall i | 0 <= i < |c| :: s[i] == c[i];
    assert s[..|a|] == a && s[..|c|] == c;
    assert s[|a| + 1..] == b && s[|c| + 1..] == d;
  }

  /** Two requests with the same canonical string are the same request, whatever the nonces hold:
      a signature cannot be moved to another method, path, time, nonce or body hash. */
  lemma CanonicalStringInjective(r: Signed, s: Signed)
    requires '\n' !in r.httpMethod && '\n' !in r.path && '\n' !in s.httpMethod && '\n' !in s.path
    requires |r.bodyHashHex| == |s.bodyHashHex| == 64
    requires CanonicalString(r) == CanonicalString(s)
    ensures Upper(r.httpMethod) == Upper(s.httpMethod)
    ensures r.path == s.path && r.createdAt == s.createdAt && r.nonce == s.nonce && r.bodyHashHex == s.bodyHashHex
  {
    var rt, st := r.nonce + "\n" + r.bodyHashHex, s.nonce + "\n" + s.bodyHashHex;
    var rc, sc := PrintInt(r.createdAt) + "\n" + rt, PrintInt(s.createdAt) + "\n" + st;
    CutAtNewline(Upper(r.httpMethod), r.path + "\n" + rc, Upper(s.httpMethod), s.path + "\n" + sc);
    CutAtNewline(r.path, rc, s.path, sc);
    PrintIntHasNoNewline(r.createdAt);
    PrintIntHasNoNewline(s.createdAt);
    CutAtNewline(PrintInt(r.createdAt), rt, PrintInt(s.createdAt), st);
    PrintIntInjective(r.createdAt, s.createdAt);
    assert rt[|r.nonce| + 1..] == r.bodyHashHex && st[|s.nonce| + 1..] == s.bodyHashHex;
    assert rt[..|r.nonce|] == r.nonce && st[..|s.nonce|] == s.nonce;
  }
}
