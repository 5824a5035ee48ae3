/** Paths of raw names, and a text form of names that is readable and can be undone:
  it is made of printable runes only, whatever bytes a name has.
 */
module Paths {
  import opened Order
  import opened Common

  const MAX_NAME_LEN := 255
  const MAX_PATH_DEPTH := 256
  const SLASH: byte := 47
  const BACKSLASH: byte := 92
  const LETTER_X: byte := 120
  const RUNE_ERROR := 0xFFFD

  // ---- valid paths ----

  predicate ValidName(n: Bytes) {
    && 0 < |n| <= MAX_NAME_LEN
    && n != [46] && n != [46, 46]
    && SLASH !in n && 0 !in n
  }

  predicate ValidPath(path: seq<Bytes>) {
    |path| <= MAX_PATH_DEPTH && forall n :: n in path ==> ValidName(n)
  }

  method ValidatePath(path: seq<Bytes>) returns (ok: bool)
    ensures ok <==> ValidPath(path)
  {
    if |path| > MAX_PATH_DEPTH {
      return false;
    }
    for i := 0 to |path|
      invariant forall k :: 0 <= k < i ==> ValidName(path[k])
    {
      if !ValidName(path[i]) {
        assert path[i] in path;
        return false;
      }
    }
    ok := true;
  }

  // ---- where a path leads ----

  const DOT: Bytes := [46]
  const DOT_DOT: Bytes := [46, 46]

  /** The folder that `parts` lead to from folder `at`: an empty part and "." stay there, and
      ".." goes up. */
  function Leads(at: seq<Bytes>, parts: seq<Bytes>): (r: seq<Bytes>)
    decreases |parts|
  {
    if parts == [] then at
    else if parts[0] == [] || parts[0] == DOT then Leads(at, parts[1..])
    else if parts[0] == DOT_DOT then Leads(if at == [] then [] else at[..|at| - 1], parts[1..])
    else Leads(at + [parts[0]], parts[1..])
  }

  /** A valid path leads where its names say, from any folder. */
  lemma {:induction false} ValidPathLeadsThere(at: seq<Bytes>, path: seq<Bytes>)
    requires forall n :: n in path ==> ValidName(n)
    ensures Leads(at, path) == at + path
    decreases |path|
  {
    if path == [] {
      assert at + path == at;
    } else {
      assert ValidName(path[0]);
      ValidPathLeadsThere(at + [path[0]], path[1..]);
      assert at + [path[0]] + path[1..] == at + path;
    }
  }

  /** The names that are valid: those of at most 255 bytes without a slash or NUL that lead to
      themselves. */
  lemma {:induction false} ValidNameExactly(n: Bytes)
    ensures ValidName(n) <==>
            |n| <= 255 && (forall b :: b in n ==> b != 0 && b != SLASH) && Leads([], [n]) == [n]
  {
    var one: seq<Bytes> := [n];
    assert one[1..] == [];
    assert Leads([n], []) == [n] && Leads([], []) == [];
  }

  /** Without ".." a path leads to a folder below. */
  lemma {:induction false} NoDotDotStaysBelow(at: seq<Bytes>, parts: seq<Bytes>)
    requires DOT_DOT !in parts
    ensures at <= Leads(at, parts)
    decreases |parts|
  {
    if parts != [] {
      NoDotDotStaysBelow(if parts[0] == [] || parts[0] == DOT then at else at + [parts[0]], parts[1..]);
    }
  }

  // ---- UTF-8, section 3 of RFC 3629 ----

  predicate Tail(b: byte) {
    0x80 <= b <= 0xBF
  }

  /** Six more bits, from a tail byte. */
  function Bits(high: int, tail: int): (r: int) {
    high * 64 + (tail - 0x80)
  }

  /** `utf8.DecodeRune`: the first rune and its length; a byte that starts no valid
      rune is RuneError of length 1, and no byte at all RuneError of length 0. */
  function DecodeRune(s: Bytes): (r: (int, nat))
    ensures r.1 <= |s| && r.1 <= 4 && (s != [] ==> r.1 >= 1)
    ensures s != [] && s[0] < 0x80 ==> r == (s[0] as int, 1)
    ensures r.1 > 1 ==> s[0] >= 0x80
  {
    if s == [] then (RUNE_ERROR, 0)
    else if s[0] < 0x80 then (s[0] as int, 1)
    else if 0xC2 <= s[0] <= 0xDF && |s| >= 2 && Tail(s[1]) then (Bits(s[0] - 0xC0, s[1]), 2)
    else if 0xE0 <= s[0] <= 0xEF && |s| >= 3 && Tail(s[1]) && Tail(s[2])
            && (s[0] == 0xE0 ==> s[1] >= 0xA0) && (s[0] == 0xED ==> s[1] <= 0x9F)
    then (Bits(Bits(s[0] - 0xE0, s[1]), s[2]), 3)
    else if 0xF0 <= s[0] <= 0xF4 && |s| >= 4 && Tail(s[1]) && Tail(s[2]) && Tail(s[3])
            && (s[0] == 0xF0 ==> s[1] >= 0x90) && (s[0] == 0xF4 ==> s[1] <= 0x8F)
    then (Bits(Bits(Bits(s[0] - 0xF0, s[1]), s[2]), s[3]), 4)
    else (RUNE_ERROR, 1)
  }

  /** The first bytes of `s` are no valid rune. */
  predicate BadRune(s: Bytes) {
    DecodeRune(s).0 == RUNE_ERROR && DecodeRune(s).1 <= 1
  }

  /** A rune is told by its own bytes alone, and none but ASCII holds an ASCII byte. */
  lemma {:induction false} RuneStandsAlone(s: Bytes, more: Bytes)
    requires s != [] && !BadRune(s)
    ensures var n := DecodeRune(s).1;
            && DecodeRune(s[..n] + more) == DecodeRune(s)
            && (n == 1 ==> s[0] < 0x80)
            && (n > 1 ==> forall b :: b in s[..n] ==> b >= 0x80)
  {
    var n := DecodeRune(s).1;
    var t := s[..n] + more;
    assert forall k :: 0 <= k < n ==> t[k] == s[k];
    assert n > 1 ==> forall k :: 0 <= k < n ==> s[k] >= 0x80;
  }

  /** Text that is valid UTF-8 and made only of printable runes. */
  predicate PrintableText(s: Bytes, isPrint: int -> bool) {
    s == [] || (!BadRune(s) && isPrint(DecodeRune(s).0) && PrintableText(s[DecodeRune(s).1..], isPrint))
  }

  /** The runes that the escape itself writes are printable: the backslash, the x
      and the lower-case hexadecimal digits. */
  ghost predicate AsciiPrints(isPrint: int -> bool) {
    && isPrint(92) && isPrint(120)
    && (forall c :: 48 <= c <= 57 ==> isPrint(c)) && (forall c :: 97 <= c <= 102 ==> isPrint(c))
  }

  // ---- escaping ----

  function HexDigit(v: nat): (d: byte)
    requires v < 16
    ensures 48 <= d <= 57 || 97 <= d <= 102
  {
    if v < 10 then 48 + v else 87 + v
  }

  function HexVal(c: byte): (v: Option<nat>)
    ensures v.Some? ==> v.value < 16
  {
    if 48 <= c <= 57 then Some(c - 48)
    else if 97 <= c <= 102 then Some(c - 87)
    else if 65 <= c <= 70 then Some(c - 55)
    else None
  }

  /** A digit is read as it is written, and a letter also if it is a capital; nothing else is
      a digit. */
  lemma {:induction false} HexValUndoesHexDigit(c: byte, v: nat)
    requires v < 16
    ensures HexVal(c) == Some(v) <==> c == HexDigit(v) || (v >= 10 && c + 32 == HexDigit(v))
  {
  }

  function HexByte(high: nat, low: nat): (b: byte)
    requires high < 16 && low < 16
  {
    high * 16 + low
  }

  /** Reading the two digits of a byte gives the byte. */
  lemma {:induction false} HexRoundTrip(b: byte)
    ensures HexVal(HexDigit(b / 16)) == Some(b / 16) && HexVal(HexDigit(b % 16)) == Some(b % 16)
    ensures HexByte(b / 16, b % 16) == b
  {
  }

  /** `\x%02x` of one byte. */
  function HexEscape(b: byte): (r: Bytes)
    ensures |r| == 4
  {
    [BACKSLASH, LETTER_X, HexDigit(b / 16), HexDigit(b % 16)]
  }

  function HexAll(s: Bytes): (r: Bytes) {
    if s == [] then [] else HexEscape(s[0]) + HexAll(s[1..])
  }

  /** What one rune, or one byte that starts none, is written as. */
  function Piece(s: Bytes, isPrint: int -> bool): (r: Bytes)
    requires s != []
  {
    var (rune, n) := DecodeRune(s);
    if rune == 92 && n == 1 then [BACKSLASH, BACKSLASH]
    else if BadRune(s) || !isPrint(rune) then HexAll(s[..n])
    else s[..n]
  }

  function Escaped(s: Bytes, isPrint: int -> bool): (r: Bytes) {
    if s == [] then [] else Piece(s, isPrint) + Escaped(s[DecodeRune(s).1..], isPrint)
  }

  lemma {:induction false} EscapedUnrolls(text: Bytes, rest: Bytes, isPrint: int -> bool)
    requires rest != []
    ensures text + Escaped(rest, isPrint) ==
            text + Piece(rest, isPrint) + Escaped(rest[DecodeRune(rest).1..], isPrint)
  {
  }

  method Escape(name: Bytes, isPrint: int -> bool) returns (text: Bytes)
    ensures text == Escaped(name, isPrint)
  {
    text := [];
    var rest := name;
    while rest != []
      invariant text + Escaped(rest, isPrint) == Escaped(name, isPrint)
      decreases |rest|
    {
      EscapedUnrolls(text, rest, isPrint);
      var (_, size) := DecodeRune(rest);
      text, rest := text + Piece(rest, isPrint), rest[size..];
    }
  }

  function Prepend(b: byte, r: Option<Bytes>): (s: Option<Bytes>) {
    if r.Some? then Some([b] + r.value) else None
  }

  /** The first byte that escaped text stands for, and how much text tells it. */
  function FirstByte(s: Bytes): (r: Option<(byte, nat)>)
    requires s != []
    ensures r.Some? ==> 1 <= r.value.1 <= |s|
  {
    if s[0] != BACKSLASH then Some((s[0], 1))
    else if |s| < 2 then None
    else if s[1] == BACKSLASH then Some((BACKSLASH, 2))
    else if s[1] != LETTER_X || |s| < 4 || HexVal(s[2]).None? || HexVal(s[3]).None? then None
    else Some((HexByte(HexVal(s[2]).value, HexVal(s[3]).value), 4))
  }

  /** What escaped text stands for; none if it is not well formed. */
  function Unescaped(s: Bytes): (r: Option<Bytes>) {
    if s == [] then Some([])
    else if FirstByte(s).None? then None
    else Prepend(FirstByte(s).value.0, Unescaped(s[FirstByte(s).value.1..]))
  }

  function Append(a: Bytes, r: Option<Bytes>): (s: Option<Bytes>) {
    if r.Some? then Some(a + r.value) else None
  }

  lemma {:induction false} AppendPrepend(a: Bytes, b: byte, r: Option<Bytes>)
    ensures Append(a, Prepend(b, r)) == Append(a + [b], r)
  {
    if r.Some? {
      assert a + ([b] + r.value) == a + [b] + r.value;
    }
  }

  method Unescape(s: Bytes) returns (r: Option<Bytes>)
    ensures r == Unescaped(s)
  {
    var out: Bytes := [];
    var rest := s;
    assert Unescaped(s).Some? ==> [] + Unescaped(s).value == Unescaped(s).value;
    while rest != []
      invariant Append(out, Unescaped(rest)) == Unescaped(s)
      decreases |rest|
    {
      var first := FirstByte(rest);
      if first.None? {
        return None;
      }
      AppendPrepend(out, first.value.0, Unescaped(rest[first.value.1..]));
      out, rest := out + [first.value.0], rest[first.value.1..];
    }
    assert out + [] == out;
    r := Some(out);
  }

  // ---- the round trip ----

  lemma {:induction false} UnescapeFirst(head: Bytes, b: byte, rest: Bytes)
    requires head != [] && FirstByte(head + rest) == Some((b, |head|))
    ensures Unescaped(head + rest) == Prepend(b, Unescaped(rest))
  {
    assert (head + rest)[|head|..] == rest;
  }

  lemma {:induction false} UnescapeHexByte(b: byte, rest: Bytes)
    ensures Unescaped(HexEscape(b) + rest) == Prepend(b, Unescaped(rest))
  {
    HexRoundTrip(b);
    var t := HexEscape(b) + rest;
    assert t[0] == BACKSLASH && t[1] == LETTER_X && t[2] == HexDigit(b / 16) && t[3] == HexDigit(b % 16);
    UnescapeFirst(HexEscape(b), b, rest);
  }

  lemma {:induction false} PrependAppend(b: byte, s: Bytes, r: Option<Bytes>)
    ensures Prepend(b, Append(s, r)) == Append([b] + s, r)
  {
    if r.Some? {
      assert [b] + (s + r.value) == [b] + s + r.value;
    }
  }

  lemma {:induction false} AppendNothing(r: Option<Bytes>)
    ensures Append([], r) == r
  {
    if r.Some? {
      assert [] + r.value == r.value;
    }
  }

  lemma {:induction false} UnescapeHex(s: Bytes, rest: Bytes)
    ensures Unescaped(HexAll(s) + rest) == Append(s, Unescaped(rest))
  {
    if s == [] {
      assert HexAll(s) + rest == rest;
      AppendNothing(Unescaped(rest));
    } else {
      var more := HexAll(s[1..]) + rest;
      assert HexAll(s) + rest == HexEscape(s[0]) + more;
      UnescapeHexByte(s[0], more);
      UnescapeHex(s[1..], rest);
      PrependAppend(s[0], s[1..], Unescaped(rest));
      assert s == [s[0]] + s[1..];
    }
  }

  lemma {:induction false} UnescapePlain(s: Bytes, rest: Bytes)
    requires BACKSLASH !in s
    ensures Unescaped(s + rest) == Append(s, Unescaped(rest))
  {
    if s == [] {
      assert s + rest == rest;
      AppendNothing(Unescaped(rest));
    } else {
      var more := s[1..] + rest;
      assert s + rest == [s[0]] + more;
      UnescapeFirst([s[0]], s[0], more);
      UnescapePlain(s[1..], rest);
      PrependAppend(s[0], s[1..], Unescaped(rest));
      assert s == [s[0]] + s[1..];
    }
  }

  lemma {:induction false} UnescapePiece(s: Bytes, isPrint: int -> bool, rest: Bytes)
    requires s != []
    ensures Unescaped(Piece(s, isPrint) + rest) == Append(s[..DecodeRune(s).1], Unescaped(rest))
  {
    var (rune, n) := DecodeRune(s);
    if rune == 92 && n == 1 {
      RuneStandsAlone(s, []);
      assert s[..1] == [BACKSLASH];
      var twice: Bytes := [BACKSLASH, BACKSLASH];
      UnescapeFirst(twice, BACKSLASH, rest);
      PrependAppend(BACKSLASH, [], Unescaped(rest));
      AppendNothing(Unescaped(rest));
    } else if BadRune(s) || !isPrint(rune) {
      UnescapeHex(s[..n], rest);
    } else {
      RuneStandsAlone(s, []);
      if n == 1 {
        assert s[..1] == [s[0]];
      }
      UnescapePlain(s[..n], rest);
    }
  }

  /** `Unescape` undoes `Escape`, for every byte string and whatever is printable. */
  lemma {:induction false} UnescapeUndoesEscape(s: Bytes, isPrint: int -> bool)
    ensures Unescaped(Escaped(s, isPrint)) == Some(s)
    decreases |s|
  {
    if s != [] {
      var n := DecodeRune(s).1;
      UnescapePiece(s, isPrint, Escaped(s[n..], isPrint));
      UnescapeUndoesEscape(s[n..], isPrint);
      assert s[..n] + s[n..] == s;
    }
  }

  // ---- the text is printable UTF-8 ----

  lemma {:induction false} PrintableAscii(s: Bytes, rest: Bytes, isPrint: int -> bool)
    requires forall k :: 0 <= k < |s| ==> s[k] < 0x80 && isPrint(s[k])
    requires PrintableText(rest, isPrint)
    ensures PrintableText(s + rest, isPrint)
  {
    if s == [] {
      assert s + rest == rest;
    } else {
      assert (s + rest)[1..] == s[1..] + rest;
      PrintableAscii(s[1..], rest, isPrint);
    }
  }

  lemma {:induction false} PrintableHex(s: Bytes, rest: Bytes, isPrint: int -> bool)
    requires AsciiPrints(isPrint) && PrintableText(rest, isPrint)
    ensures PrintableText(HexAll(s) + rest, isPrint)
  {
    if s == [] {
      assert HexAll(s) + rest == rest;
    } else {
      PrintableHex(s[1..], rest, isPrint);
      assert HexAll(s) + rest == HexEscape(s[0]) + (HexAll(s[1..]) + rest);
      PrintableAscii(HexEscape(s[0]), HexAll(s[1..]) + rest, isPrint);
    }
  }

  /** Escaped text is valid UTF-8 made only of printable runes. */
  lemma {:induction false} EscapedIsPrintable(s: Bytes, isPrint: int -> bool)
    requires AsciiPrints(isPrint)
    ensures PrintableText(Escaped(s, isPrint), isPrint)
    decreases |s|
  {
    if s != [] {
      var (rune, n) := DecodeRune(s);
      var rest := Escaped(s[n..], isPrint);
      EscapedIsPrintable(s[n..], isPrint);
      if rune == 92 && n == 1 {
        PrintableAscii([BACKSLASH, BACKSLASH], rest, isPrint);
      } else if BadRune(s) || !isPrint(rune) {
        PrintableHex(s[..n], rest, isPrint);
      } else {
        RuneStandsAlone(s, rest);
        assert (s[..n] + rest)[n..] == rest;
      }
    }
  }

  // ---- paths as text ----

  /** `strings.Split(s, "/")`. */
  function Split(s: Bytes): (r: seq<Bytes>)
    ensures |r| >= 1
  {
    if s == [] then [[]]
    else if s[0] == SLASH then [[]] + Split(s[1..])
    else [[s[0]] + Split(s[1..])[0]] + Split(s[1..])[1..]
  }

  function NonEmpty(parts: seq<Bytes>): (r: seq<Bytes>) {
    if parts == [] then []
    else if parts[0] == [] then NonEmpty(parts[1..])
    else [parts[0]] + NonEmpty(parts[1..])
  }

  function UnescapedAll(parts: seq<Bytes>): (r: Option<seq<Bytes>>) {
    if parts == [] then Some([])
    else if Unescaped(parts[0]).None? || UnescapedAll(parts[1..]).None? then None
    else Some([Unescaped(parts[0]).value] + UnescapedAll(parts[1..]).value)
  }

  function Slashed(n: Bytes, isPrint: int -> bool): (r: Bytes) {
    [SLASH] + Escaped(n, isPrint)
  }

  function EscapedAll(path: seq<Bytes>, isPrint: int -> bool): (r: Bytes) {
    if path == [] then [] else Slashed(path[0], isPrint) + EscapedAll(path[1..], isPrint)
  }

  function Joined(path: seq<Bytes>, isPrint: int -> bool): (r: Bytes) {
    if path == [] then [SLASH] else EscapedAll(path, isPrint)
  }

  lemma {:induction false} Regroup(a: Bytes, b: Bytes, c: Bytes)
    ensures a + (b + c) == a + b + c
  {
  }

  lemma {:induction false} EscapedAllAppend(path: seq<Bytes>, n: Bytes, isPrint: int -> bool)
    ensures EscapedAll(path + [n], isPrint) == EscapedAll(path, isPrint) + Slashed(n, isPrint)
  {
    var all, last := path + [n], Slashed(n, isPrint);
    if path == [] {
      assert all[0] == n && all[1..] == [];
      Regroup([], last, []);
    } else {
      EscapedAllAppend(path[1..], n, isPrint);
      assert all[0] == path[0] && all[1..] == path[1..] + [n];
      Regroup(Slashed(path[0], isPrint), EscapedAll(path[1..], isPrint), last);
    }
  }

  method JoinPath(path: seq<Bytes>, isPrint: int -> bool) returns (text: Bytes)
    ensures text == Joined(path, isPrint)
  {
    if path == [] {
      return [SLASH];
    }
    text := [];
    for i := 0 to |path|
      invariant text == EscapedAll(path[..i], isPrint)
    {
      EscapedAllAppend(path[..i], path[i], isPrint);
      assert path[..i + 1] == path[..i] + [path[i]];
      var shown := Escape(path[i], isPrint);
      Regroup(text, [SLASH], shown);
      text := text + [SLASH] + shown;
    }
    assert path[..|path|] == path;
  }

  lemma {:induction false} UnescapedAllAppend(parts: seq<Bytes>, p: Bytes)
    ensures UnescapedAll(parts + [p]) ==
            if UnescapedAll(parts).None? || Unescaped(p).None? then None
            else Some(UnescapedAll(parts).value + [Unescaped(p).value])
  {
    if parts == [] {
      assert (parts + [p])[1..] == [] && UnescapedAll([]).value == [];
      if Unescaped(p).Some? {
        assert [Unescaped(p).value] + [] == [] + [Unescaped(p).value];
      }
    } else {
      UnescapedAllAppend(parts[1..], p);
      assert (parts + [p])[1..] == parts[1..] + [p];
      var head, tail, last := Unescaped(parts[0]), UnescapedAll(parts[1..]), Unescaped(p);
      if head.Some? && tail.Some? && last.Some? {
        assert [head.value] + (tail.value + [last.value]) == [head.value] + tail.value + [last.value];
      }
    }
  }

  lemma {:induction false} NonEmptyAppend(parts: seq<Bytes>, p: Bytes)
    ensures NonEmpty(parts + [p]) == if p == [] then NonEmpty(parts) else NonEmpty(parts) + [p]
  {
    if parts == [] {
      assert (parts + [p])[1..] == [];
    } else {
      NonEmptyAppend(parts[1..], p);
      assert (parts + [p])[1..] == parts[1..] + [p];
    }
  }

  lemma {:induction false} UnescapedAllPrefix(parts: seq<Bytes>, i: nat)
    requires i <= |parts| && UnescapedAll(NonEmpty(parts[..i])).None?
    ensures UnescapedAll(NonEmpty(parts)).None?
    decreases |parts| - i
  {
    if i < |parts| {
      NonEmptyAppend(parts[..i], parts[i]);
      assert parts[..i + 1] == parts[..i] + [parts[i]];
      UnescapedAllAppend(NonEmpty(parts[..i]), parts[i]);
      UnescapedAllPrefix(parts, i + 1);
    } else {
      assert parts[..i] == parts;
    }
  }

  /** Reads "/a/b" back into names; empty parts are dropped. */
  method SplitPath(s: Bytes) returns (r: Option<seq<Bytes>>)
    ensures r == UnescapedAll(NonEmpty(Split(s)))
  {
    var parts := Split(s);
    var path: seq<Bytes> := [];
    for i := 0 to |parts|
      invariant UnescapedAll(NonEmpty(parts[..i])) == Some(path)
    {
      NonEmptyAppend(parts[..i], parts[i]);
      assert parts[..i + 1] == parts[..i] + [parts[i]];
      if parts[i] != [] {
        UnescapedAllAppend(NonEmpty(parts[..i]), parts[i]);
        var n := Unescape(parts[i]);
        if n.None? {
          UnescapedAllPrefix(parts, i + 1);
          return None;
        }
        path := path + [n.value];
      }
    }
    assert parts[..|parts|] == parts;
    r := Some(path);
  }

  /** `e` stands in `p` at `i`, between slashes or the ends. */
  predicate ElementAt(p: Bytes, i: nat, e: Bytes) {
    && i + |e| <= |p| && p[i..i + |e|] == e
    && (i == 0 || p[i - 1] == SLASH) && (i + |e| == |p| || p[i + |e|] == SLASH)
  }

  lemma {:induction false} ElementFront(p: Bytes, e: Bytes)
    requires p != [] && e != []
    ensures ElementAt(p, 0, e) <==> p[0] == e[0] && ElementAt(p[1..], 0, e[1..])
  {
    if |e| <= |p| {
      assert p[0..|e|] == [p[0]] + p[1..][0..|e| - 1];
      assert e == [e[0]] + e[1..];
    }
  }

  lemma {:induction false} FirstElement(p: Bytes, e: Bytes)
    requires SLASH !in e
    ensures Split(p)[0] == e <==> ElementAt(p, 0, e)
  {
    if p != [] && e != [] {
      ElementFront(p, e);
      if p[0] != SLASH {
        FirstElement(p[1..], e[1..]);
        SameFront(p[0], Split(p[1..])[0], e);
      }
    }
  }

  lemma {:induction false} SameFront(b: byte, rest: Bytes, e: Bytes)
    requires e != []
    ensures [b] + rest == e <==> b == e[0] && rest == e[1..]
  {
    assert e == [e[0]] + e[1..] && ([b] + rest)[1..] == rest;
  }

  lemma {:induction false} ElementBehind(p: Bytes, i: nat, e: Bytes)
    requires p != [] && (i > 0 || p[0] == SLASH)
    ensures ElementAt(p, i + 1, e) <==> ElementAt(p[1..], i, e)
  {
    if i + |e| < |p| {
      assert p[1..][i..i + |e|] == p[i + 1..i + 1 + |e|];
    }
  }

  lemma {:induction false} LaterElements(p: Bytes, e: Bytes)
    requires SLASH !in e
    ensures e in Split(p)[1..] <==> exists i: nat :: i > 0 && ElementAt(p, i, e)
  {
    if p != [] {
      LaterElements(p[1..], e);
      FirstElement(p[1..], e);
      forall i: nat | i > 0 || p[0] == SLASH ensures ElementAt(p, i + 1, e) <==> ElementAt(p[1..], i, e) {
        ElementBehind(p, i, e);
      }
      if i: nat :| i > 0 && ElementAt(p, i, e) {
        assert p[0] == SLASH || i > 1;
        assert ElementAt(p[1..], i - 1, e);
      }
    }
  }

  /** The elements of a text are what stands between its slashes. */
  lemma {:induction false} ElementsOfSplit(p: Bytes, e: Bytes)
    requires SLASH !in e
    ensures e in Split(p) <==> exists i: nat :: ElementAt(p, i, e)
  {
    FirstElement(p, e);
    LaterElements(p, e);
    assert Split(p) == [Split(p)[0]] + Split(p)[1..];
  }

  lemma {:induction false} SplitHead(a: Bytes, t: Bytes)
    requires SLASH !in a
    ensures Split(a + t) == [a + Split(t)[0]] + Split(t)[1..]
  {
    if a == [] {
      assert a + t == t && a + Split(t)[0] == Split(t)[0];
      assert [Split(t)[0]] + Split(t)[1..] == Split(t);
    } else {
      SplitHead(a[1..], t);
      assert (a + t)[1..] == a[1..] + t;
      assert [a[0]] + (a[1..] + Split(t)[0]) == a + Split(t)[0];
    }
  }

  lemma {:induction false} HexAllHasNoSlash(s: Bytes)
    ensures SLASH !in HexAll(s)
  {
    if s != [] {
      HexAllHasNoSlash(s[1..]);
    }
  }

  /** Escaping adds no slash, and leaves no name empty. */
  lemma {:induction false} EscapedHasNoSlash(s: Bytes, isPrint: int -> bool)
    requires SLASH !in s
    ensures SLASH !in Escaped(s, isPrint) && (s != [] ==> Escaped(s, isPrint) != [])
    decreases |s|
  {
    if s != [] {
      var n := DecodeRune(s).1;
      EscapedHasNoSlash(s[n..], isPrint);
      HexAllHasNoSlash(s[..n]);
      assert s[..n] != [] && HexAll(s[..n]) != [];
    }
  }

  lemma {:induction false} SplitName(e: Bytes, t: Bytes)
    requires SLASH !in e && e != [] && Split(t)[0] == []
    ensures Split([SLASH] + e + t)[0] == []
    ensures NonEmpty(Split([SLASH] + e + t)[1..]) == [e] + NonEmpty(Split(t)[1..])
  {
    SplitHead(e, t);
    var all := [SLASH] + e + t;
    assert all[1..] == e + t;
    assert Split(all)[1..] == Split(e + t);
    assert e + Split(t)[0] == e;
    assert Split(e + t)[0] == e && Split(e + t)[1..] == Split(t)[1..];
  }

  lemma {:induction false} UnescapedAllCons(p: Bytes, n: Bytes, parts: seq<Bytes>)
    requires Unescaped(p) == Some(n) && UnescapedAll(parts).Some?
    ensures UnescapedAll([p] + parts) == Some([n] + UnescapedAll(parts).value)
  {
    assert ([p] + parts)[1..] == parts;
  }

  lemma {:induction false} SplitEscapedAll(path: seq<Bytes>, isPrint: int -> bool)
    requires forall n :: n in path ==> ValidName(n)
    ensures Split(EscapedAll(path, isPrint))[0] == []
    ensures UnescapedAll(NonEmpty(Split(EscapedAll(path, isPrint))[1..])) == Some(path)
  {
    if path == [] {
      assert Split([])[1..] == [];
    } else {
      var e, t := Escaped(path[0], isPrint), EscapedAll(path[1..], isPrint);
      assert path[0] in path;
      EscapedHasNoSlash(path[0], isPrint);
      SplitEscapedAll(path[1..], isPrint);
      SplitName(e, t);
      UnescapeUndoesEscape(path[0], isPrint);
      UnescapedAllCons(e, path[0], NonEmpty(Split(t)[1..]));
      assert path == [path[0]] + path[1..];
    }
  }

  /** `SplitPath` undoes `JoinPath` for every valid path. */
  lemma {:induction false} SplitUndoesJoin(path: seq<Bytes>, isPrint: int -> bool)
    requires ValidPath(path)
    ensures UnescapedAll(NonEmpty(Split(Joined(path, isPrint)))) == Some(path)
  {
    if path == [] {
      var root: Bytes := [SLASH];
      assert root[1..] == [];
      var parts := Split(root);
      assert parts == [[]] + Split(root[1..]);
      assert parts[0] == [] && parts[1] == [] && |parts| == 2;
      assert NonEmpty(parts[1..][1..]) == [] && NonEmpty(parts[1..]) == [];
    } else {
      SplitEscapedAll(path, isPrint);
      var parts := Split(EscapedAll(path, isPrint));
      assert NonEmpty(parts) == NonEmpty(parts[1..]);
    }
  }
}
