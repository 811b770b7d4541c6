/** Channel names as directory names: four replacements one way, four back. */
module ChannelCodec {

  /** `s.replace(old, new)` for a non-empty `old`: left to right, without overlap. */
  function Replace(s: string, old_: string, new_: string): string
    requires old_ != []
  {
    if |s| < |old_| then s
    else if s[..|old_|] == old_ then new_ + Replace(s[|old_|..], old_, new_)
    else [s[0]] + Replace(s[1..], old_, new_)
  }

  function EncodeChannel(channel: string): string {
    Replace(Replace(Replace(Replace(channel, "%", "%25"), "/", "%2F"), "\\", "%5C"), ":", "%3A")
  }

  function DecodeChannel(dirname: string): string {
    Replace(Replace(Replace(Replace(dirname, "%3A", ":"), "%2F", "/"), "%5C", "\\"), "%25", "%")
  }

  // ---------------------------------------------------------------- partially escaped strings

  const SPECIAL: set<char> := {'%', '/', '\\', ':'}

  /** The escape of a special character. */
  function Escape(c: char): (e: string)
    requires c in SPECIAL
    ensures |e| == 3 && e[0] == '%' && e[1] !in SPECIAL && e[2] !in SPECIAL
  {
    if c == '%' then "%25" else if c == '/' then "%2F" else if c == '\\' then "%5C" else "%3A"
  }

  /** `s` with the special characters outside `plain` escaped. */
  function Escaped(plain: set<char>, s: string): string {
    if s == [] then []
    else (if s[0] in SPECIAL && s[0] !in plain then Escape(s[0]) else [s[0]]) + Escaped(plain, s[1..])
  }

  lemma {:induction false} NothingEscaped(s: string)
    ensures Escaped(SPECIAL, s) == s
  {
    if s != [] { NothingEscaped(s[1..]); }
  }

  lemma ReplaceNothing(old_: string, new_: string)
    requires old_ != []
    ensures Replace([], old_, new_) == []
  {
  }

  lemma ReplaceMatch(head: string, rest: string, new_: string)
    requires head != []
    ensures Replace(head + rest, head, new_) == new_ + Replace(rest, head, new_)
  {
    assert (head + rest)[..|head|] == head && (head + rest)[|head|..] == rest;
  }

  lemma ReplaceSkip(c: char, rest: string, old_: string, new_: string)
    requires old_ != [] && c != old_[0]
    ensures Replace([c] + rest, old_, new_) == [c] + Replace(rest, old_, new_)
  {
    var s := [c] + rest;
    assert s[1..] == rest;
    if |s| < |old_| {
      assert Replace(rest, old_, new_) == rest;
    } else {
      assert s[..|old_|][0] == c;
    }
  }

  lemma {:induction false} SkipAll(head: string, rest: string, old_: string, new_: string)
    requires old_ != [] && forall i :: 0 <= i < |head| ==> head[i] != old_[0]
    ensures Replace(head + rest, old_, new_) == head + Replace(rest, old_, new_)
  {
    hide Replace;
    if head == [] {
      assert head + rest == rest && head + Replace(rest, old_, new_) == Replace(rest, old_, new_);
    } else {
      SkipAll(head[1..], rest, old_, new_);
      ReplaceSkip(head[0], head[1..] + rest, old_, new_);
      assert [head[0]] + (head[1..] + rest) == head + rest;
      assert [head[0]] + (head[1..] + Replace(rest, old_, new_)) == head + Replace(rest, old_, new_);
    }
  }

  /** One encoding pass escapes one more character, as long as '%' is escaped first. */
  lemma {:induction false} EncodePass(plain: set<char>, x: char, s: string)
    requires x in SPECIAL && x in plain && (x == '%' ==> SPECIAL <= plain) && (x != '%' ==> '%' !in plain)
    ensures Replace(Escaped(plain, s), [x], Escape(x)) == Escaped(plain - {x}, s)
  {
    hide Replace, Escape;
    if s == [] {
      ReplaceNothing([x], Escape(x));
    } else {
      var c, rest := s[0], Escaped(plain, s[1..]);
      EncodePass(plain, x, s[1..]);
      if c == x {
        ReplaceMatch([x], rest, Escape(x));
      } else if c in SPECIAL && c !in plain {
        SkipAll(Escape(c), rest, [x], Escape(x));
      } else {
        ReplaceSkip(c, rest, [x], Escape(x));
      }
    }
  }

  lemma EscapesDiffer(c: char, x: char)
    requires c in SPECIAL && x in SPECIAL && c != x
    ensures Escape(c) != Escape(x)
  {
  }

  /** A word of the same length that differs is not replaced where it stands. */
  lemma ReplaceMismatch(e: string, old_: string, rest: string, new_: string)
    requires |e| == |old_| > 0 && e != old_
    ensures Replace(e + rest, old_, new_) == [e[0]] + Replace(e[1..] + rest, old_, new_)
  {
    assert (e + rest)[..|old_|] == e && (e + rest)[1..] == e[1..] + rest;
  }

  /** A pass for one escape leaves the others alone. */
  lemma OtherEscape(c: char, x: char, rest: string)
    requires c in SPECIAL && x in SPECIAL && c != x
    ensures Replace(Escape(c) + rest, Escape(x), [x]) == Escape(c) + Replace(rest, Escape(x), [x])
  {
    hide Replace, Escape;
    EscapesDiffer(c, x);
    ReplaceMismatch(Escape(c), Escape(x), rest, [x]);
    SkipAll(Escape(c)[1..], rest, Escape(x), [x]);
    var e, after := Escape(c), Replace(rest, Escape(x), [x]);
    assert [e[0]] + (e[1..] + after) == e + after;
  }

  /** One decoding pass undoes one escape, as long as '%' comes last: a '%' in a partially escaped string
      always starts an escape. */
  lemma {:induction false} DecodePass(plain: set<char>, x: char, s: string)
    requires x in SPECIAL && x !in plain && '%' !in plain && (x == '%' ==> SPECIAL - {'%'} <= plain)
    ensures Replace(Escaped(plain, s), Escape(x), [x]) == Escaped(plain + {x}, s)
  {
    if s != [] {
      hide Replace;
      var c, rest := s[0], Escaped(plain, s[1..]);
      DecodePass(plain, x, s[1..]);
      if c == x {
        ReplaceMatch(Escape(x), rest, [x]);
      } else if c in SPECIAL && c !in plain {
        OtherEscape(c, x, rest);
      } else {
        ReplaceSkip(c, rest, Escape(x), [x]);
      }
    }
  }

  lemma EncodeIsEscaped(s: string)
    ensures EncodeChannel(s) == Escaped({}, s)
  {
    NothingEscaped(s);
    EncodePass(SPECIAL, '%', s);
    EncodePass({'/', '\\', ':'}, '/', s);
    EncodePass({'\\', ':'}, '\\', s);
    EncodePass({':'}, ':', s);
    assert SPECIAL - {'%'} == {'/', '\\', ':'} && {'/', '\\', ':'} - {'/'} == {'\\', ':'};
    assert {'\\', ':'} - {'\\'} == {':'} && {':'} - {':'} == {};
  }

  /** Decoding undoes encoding for every channel name, also one that already contains escapes. */
  lemma RoundTrip(s: string)
    ensures DecodeChannel(EncodeChannel(s)) == s
  {
    EncodeIsEscaped(s);
    DecodePass({}, ':', s);
    DecodePass({':'}, '/', s);
    DecodePass({':', '/'}, '\\', s);
    DecodePass({':', '/', '\\'}, '%', s);
    assert {} + {':'} == {':'} && {':'} + {'/'} == {':', '/'} && {':', '/'} + {'\\'} == {':', '/', '\\'};
    assert {':', '/', '\\'} + {'%'} == SPECIAL;
    NothingEscaped(s);
  }

  /** Different channels never share a directory. */
  lemma EncodeInjective(s: string, t: string)
    requires EncodeChannel(s) == EncodeChannel(t)
    ensures s == t
  {
    RoundTrip(s);
    RoundTrip(t);
  }

  // ---------------------------------------------------------------- which directory names are encodings

  /** No separator occurs, and every '%' starts one of the four escapes. */
  predicate WellEscaped(d: string) {
    d == [] ||
    if d[0] == '%' then |d| >= 3 && d[..3] in {"%25", "%2F", "%5C", "%3A"} && WellEscaped(d[3..])
    else d[0] !in SPECIAL && WellEscaped(d[1..])
  }

  lemma {:induction false} EscapedIsWellEscaped(s: string)
    ensures WellEscaped(Escaped({}, s))
  {
    if s != [] {
      EscapedIsWellEscaped(s[1..]);
      var rest := Escaped({}, s[1..]);
      if s[0] in SPECIAL {
        var d := Escape(s[0]) + rest;
        assert d[..3] == Escape(s[0]) && d[3..] == rest;
      } else {
        assert ([s[0]] + rest)[1..] == rest;
      }
    }
  }

  lemma {:induction false} NoSeparators(d: string)
    requires WellEscaped(d)
    ensures forall c :: c in d ==> c !in {'/', '\\', ':'}
  {
    if d != [] {
      if d[0] == '%' {
        NoSeparators(d[3..]);
        assert d == d[..3] + d[3..];
      } else {
        NoSeparators(d[1..]);
        assert d == [d[0]] + d[1..];
      }
    }
  }

  /** Every well-escaped name is the encoding of some channel. */
  lemma {:induction false} WellEscapedHasSource(d: string) returns (s: string)
    requires WellEscaped(d)
    ensures Escaped({}, s) == d
  {
    if d == [] {
      s := [];
    } else if d[0] == '%' {
      var rest := WellEscapedHasSource(d[3..]);
      var c := if d[..3] == "%25" then '%' else if d[..3] == "%2F" then '/' else if d[..3] == "%5C" then '\\' else ':';
      s := [c] + rest;
      assert s[1..] == rest && Escape(c) == d[..3] && d == d[..3] + d[3..];
    } else {
      var rest := WellEscapedHasSource(d[1..]);
      s := [d[0]] + rest;
      assert s[1..] == rest && d == [d[0]] + d[1..];
    }
  }

  /** The directory names that survive decoding and encoding again are exactly the well-escaped ones, which
      contain none of the characters "/", "\" and ":". */
  lemma EncodedNames(d: string)
    ensures EncodeChannel(DecodeChannel(d)) == d <==> WellEscaped(d)
    ensures WellEscaped(d) ==> forall c :: c in d ==> c !in {'/', '\\', ':'}
  {
    if WellEscaped(d) {
      var s := WellEscapedHasSource(d);
      EncodeIsEscaped(s);
      RoundTrip(s);
      NoSeparators(d);
    }
    EncodeIsEscaped(DecodeChannel(d));
    EscapedIsWellEscaped(DecodeChannel(d));
  }

  /** The encoding of any channel is well escaped, hence free of separators. */
  lemma EncodingIsSafe(s: string)
    ensures WellEscaped(EncodeChannel(s))
    ensures forall c :: c in EncodeChannel(s) ==> c !in {'/', '\\', ':'}
  {
    EncodeIsEscaped(s);
    EscapedIsWellEscaped(s);
    NoSeparators(EncodeChannel(s));
  }

  // ---------------------------------------------------------------- character by character

  function HexDigit(d: nat): char
    requires d < 16
  {
    "0123456789ABCDEF"[d]
  }

  /** The escapes are percent signs followed by the character's code in upper-case hexadecimal. */
  lemma EscapesAreHex(c: char)
    requires c in SPECIAL
    ensures Escape(c) == ['%', HexDigit(c as int / 16), HexDigit(c as int % 16)]
  {
    assert '%' as int == 37 && '/' as int == 47 && '\\' as int == 92 && ':' as int == 58;
  }

  function EscapedChar(plain: set<char>, c: char): string {
    if c in SPECIAL && c !in plain then Escape(c) else [c]
  }

  lemma EscapedNext(plain: set<char>, c: char, rest: string)
    ensures Escaped(plain, [c] + rest) == EscapedChar(plain, c) + Escaped(plain, rest)
  {
    assert ([c] + rest)[1..] == rest;
  }

  lemma EscapedEmpty(plain: set<char>, t: string)
    ensures [] + t == t && Escaped(plain, []) + Escaped(plain, t) == Escaped(plain, t)
  {
  }

  lemma {:induction false} EscapedConcat(plain: set<char>, s: string, t: string)
    ensures Escaped(plain, s + t) == Escaped(plain, s) + Escaped(plain, t)
  {
    hide Escaped, EscapedChar;
    if s == [] {
      EscapedEmpty(plain, t);
    } else {
      var c, rest := s[0], s[1..];
      EscapedConcat(plain, rest, t);
      EscapedNext(plain, c, rest);
      EscapedNext(plain, c, rest + t);
      assert s == [c] + rest && s + t == [c] + (rest + t);
    }
  }

  /** A name is encoded character by character: the percent sign, both slashes and the colon as their
      percent escapes, every other character as itself. */
  lemma EncodedCharByChar(s: string, c: char)
    ensures EncodeChannel("") == ""
    ensures EncodeChannel(s + [c]) == EncodeChannel(s) +
      if c == '%' || c == '/' || c == '\\' || c == ':' then ['%', HexDigit(c as int / 16), HexDigit(c as int % 16)] else [c]
  {
    EncodeIsEscaped("");
    EncodeIsEscaped(s);
    EncodeIsEscaped(s + [c]);
    EscapedConcat({}, s, [c]);
    EscapedOne(c);
    if c in SPECIAL {
      EscapesAreHex(c);
    }
  }

  lemma EscapedOne(c: char)
    ensures Escaped({}, [c]) == if c in SPECIAL then Escape(c) else [c]
  {
    assert [c][1..] == [];
    assert Escaped({}, []) == [];
  }
}
