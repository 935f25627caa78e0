/** Byte patterns as they are written: hexadecimal pairs and question marks between blanks. */
module PatternText {
  import opened Bytes

  /** A wildcard is `None`. */
  type Pattern = p: seq<Option<byte>> | |p| > 0 witness [None]

  predicate IsSpace(c: char) {
    c == ' ' || '\t' <= c <= '\r'
  }

  /** The words of a text; `word` is what has been read of the current one. */
  function Words(s: string, word: string): seq<string>
    decreases |s|
  {
    if s == "" then Finished(word)
    else if IsSpace(s[0]) then Finished(word) + Words(s[1..], "")
    else Words(s[1..], word + [s[0]])
  }

  function Finished(word: string): seq<string> {
    if word == "" then [] else [word]
  }

  function HexDigit(c: char): Option<nat> {
    if '0' <= c <= '9' then Some(c as nat - '0' as nat)
    else if 'a' <= c <= 'f' then Some(c as nat - 'a' as nat + 10)
    else if 'A' <= c <= 'F' then Some(c as nat - 'A' as nat + 10)
    else None
  }

  /** `u8::from_str_radix` on two characters, which takes a plus sign for the first. */
  function HexPair(a: char, b: char): (r: Option<byte>) {
    if HexDigit(b).None? then None
    else if a == '+' then Some(HexDigit(b).value)
    else if HexDigit(a).None? then None
    else Some(16 * HexDigit(a).value + HexDigit(b).value)
  }

  /** What one word stands for: nothing valid, a wildcard, or a byte. */
  function Token(word: string): Option<Option<byte>> {
    if word == "?" || word == "??" then Some(None)
    else if |word| != 2 || HexPair(word[0], word[1]).None? then None
    else Some(HexPair(word[0], word[1]))
  }

  function Tokens(words: seq<string>, n: nat): seq<Option<byte>>
    requires n <= |words| && forall i | 0 <= i < n :: Token(words[i]).Some?
  {
    if n == 0 then [] else Tokens(words, n - 1) + [Token(words[n - 1]).value]
  }

  function Parsed(spec: string): Option<Pattern> {
    Meant(Words(spec, ""))
  }

  /** Malformed words and the empty pattern are refused. */
  function Meant(words: seq<string>): Option<Pattern> {
    if words == [] || exists i :: 0 <= i < |words| && Token(words[i]).None? then None
    else TokensLength(words, |words|); Some(Tokens(words, |words|))
  }

  lemma {:induction false} TokensLength(words: seq<string>, n: nat)
    requires n <= |words| && forall i | 0 <= i < n :: Token(words[i]).Some?
    ensures |Tokens(words, n)| == n
    ensures forall i | 0 <= i < n :: Tokens(words, n)[i] == Token(words[i]).value
  {
    if n > 0 {
      TokensLength(words, n - 1);
    }
  }

  method Parse(spec: string) returns (p: Option<Pattern>)
    ensures p == Parsed(spec)
  {
    var words := Words(spec, "");
    var out: seq<Option<byte>> := [];
    for i := 0 to |words|
      invariant forall j | 0 <= j < i :: Token(words[j]).Some?
      invariant out == Tokens(words, i)
    {
      var t := Token(words[i]);
      if t.None? {
        return None;
      }
      out := out + [t.value];
    }
    if out == [] {
      TokensLength(words, |words|);
      return None;
    }
    return Some(out);
  }

  lemma PlusSignReads()
    ensures Parsed("+F") == Some([Some(15)])
  {
    assert "+F"[1..] == "F" && "F"[1..] == "" && "" + ['+'] == "+" && "+" + ['F'] == "+F";
    assert Words("+F", "") == Words("F", "+") == Words("", "+F") == ["+F"];
    MeantIff(["+F"]);
    assert Token("+F") == Some(Some(15));
    assert Parsed("+F").value == [Some(15)];
  }

  // ---- every pattern can be written, and reads back ----

  function Digit(n: nat): char
    requires n < 16
  {
    if n < 10 then '0' + n as char else 'A' + (n - 10) as char
  }

  function Written(b: Option<byte>): (word: string)
    ensures |word| == 2
  {
    if b.None? then "??" else [Digit(b.value / 16), Digit(b.value % 16)]
  }

  function Show(p: seq<Option<byte>>): string {
    if p == [] then "" else Written(p[0]) + " " + Show(p[1..])
  }

  lemma DigitReads(n: nat)
    requires n < 16
    ensures HexDigit(Digit(n)) == Some(n) && !IsSpace(Digit(n)) && Digit(n) != '?' && Digit(n) != '+'
  {
  }

  lemma WrittenReads(b: Option<byte>)
    ensures Token(Written(b)) == Some(b)
    ensures !IsSpace(Written(b)[0]) && !IsSpace(Written(b)[1])
  {
    if b.Some? {
      DigitReads(b.value / 16);
      DigitReads(b.value % 16);
    }
  }

  lemma FirstWord(a: char, b: char, rest: string)
    requires !IsSpace(a) && !IsSpace(b)
    ensures Words([a, b] + " " + rest, "") == [[a, b]] + Words(rest, "")
  {
    var s := [a, b] + " " + rest;
    assert s[1..] == [b] + " " + rest && s[1..][1..] == " " + rest && s[1..][1..][1..] == rest;
    assert "" + [a] == [a] && [a] + [b] == [a, b];
    assert Words(s, "") == Words(s[1..], [a]) == Words(" " + rest, [a, b]);
  }

  lemma {:induction false} ShowWords(p: seq<Option<byte>>)
    ensures |Words(Show(p), "")| == |p|
    ensures forall i | 0 <= i < |p| :: Words(Show(p), "")[i] == Written(p[i])
  {
    if p != [] {
      ShowWords(p[1..]);
      WrittenReads(p[0]);
      var w := Written(p[0]);
      assert w == [w[0], w[1]];
      FirstWord(w[0], w[1], Show(p[1..]));
    }
  }

  /** Round trip: a pattern that is written out is read back. */
  lemma ShowReadsBack(p: Pattern)
    ensures Parsed(Show(p)) == Some(p)
  {
    var words := Words(Show(p), "");
    ShowWords(p);
    forall i | 0 <= i < |p|
      ensures Token(words[i]) == Some(p[i])
    {
      WrittenReads(p[i]);
    }
    TokensLength(words, |words|);
    assert Tokens(words, |words|) == p;
  }

  /** A blank anywhere, or any number of them, only ends the word before it. */
  lemma {:induction false} WordsJoin(a: string, c: char, b: string, word: string)
    requires IsSpace(c)
    ensures Words(a + [c] + b, word) == Words(a, word) + Words(b, "")
    decreases |a|
  {
    var s := a + [c] + b;
    if a == "" {
      assert s == [c] + b && s[1..] == b;
    } else {
      assert s[0] == a[0] && s[1..] == a[1..] + [c] + b;
      if IsSpace(a[0]) {
        WordsJoin(a[1..], c, b, "");
      } else {
        WordsJoin(a[1..], c, b, word + [a[0]]);
      }
    }
  }

  lemma MeantIff(words: seq<string>)
    ensures Meant(words).Some? <==> words != [] && forall i | 0 <= i < |words| :: Token(words[i]).Some?
    ensures Meant(words).Some? ==>
      && |Meant(words).value| == |words|
      && forall i | 0 <= i < |words| :: Token(words[i]) == Some(Meant(words).value[i])
  {
    if forall i | 0 <= i < |words| :: Token(words[i]).Some? {
      TokensLength(words, |words|);
    }
  }

  lemma MeantJoin(u: seq<string>, v: seq<string>)
    requires u != [] && v != []
    ensures Meant(u + v) == if Meant(u).Some? && Meant(v).Some? then Some(Meant(u).value + Meant(v).value) else None
  {
    MeantIff(u);
    MeantIff(v);
    MeantIff(u + v);
    if Meant(u + v).Some? {
      assert forall i | 0 <= i < |u| :: Token(u[i]) == Token((u + v)[i]);
      assert forall i | 0 <= i < |v| :: Token(v[i]) == Token((u + v)[|u| + i]);
      assert Meant(u + v).value == Meant(u).value + Meant(v).value;
    }
  }

  /** Two pieces with a blank between them are a pattern if and only if each is one, unless one has
      no words, and the bytes are those of the pieces in order: layout means nothing, and one
      malformed word spoils the whole. */
  lemma ParsedJoin(a: string, c: char, b: string)
    requires IsSpace(c)
    ensures Words(a, "") != [] && Words(b, "") != [] ==>
      Parsed(a + [c] + b) ==
        if Parsed(a).Some? && Parsed(b).Some? then Some(Parsed(a).value + Parsed(b).value) else None
    ensures Words(a, "") == [] ==> Parsed(a + [c] + b) == Parsed(b)
    ensures Words(b, "") == [] ==> Parsed(a + [c] + b) == Parsed(a)
  {
    WordsJoin(a, c, b, "");
    var (u, v) := (Words(a, ""), Words(b, ""));
    if u == [] {
      assert u + v == v;
    } else if v == [] {
      assert u + v == u;
    } else {
      MeantJoin(u, v);
    }
  }
}
