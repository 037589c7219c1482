/** Quoting with sdscatrepr and splitting with sdssplitargs: whatever was quoted is split back. */
module SdsQuote {
  import opened Optional
  import opened Bytes

  const NUL: Byte := 0
  const QUOTE: Byte := 34
  const APOSTROPHE: Byte := 39
  const BACKSLASH: Byte := 92
  const SPACE: Byte := 32

  /** isprint of the C locale. */
  predicate IsPrint(b: Byte) { 32 <= b <= 126 }

  // ----- Quoting

  /** The letter that stands for a control character after a backslash, if it has one. */
  function Letter(b: Byte): Option<Byte> {
    if b == 10 then Some(110) else if b == 13 then Some(114) else if b == 9 then Some(116)
    else if b == 7 then Some(97) else if b == 8 then Some(98) else None
  }

  function HexDigit(n: nat): Byte
    requires n < 16
  {
    if n < 10 then 48 + n else 87 + n
  }

  function EscapeByte(b: Byte): (s: seq<Byte>)
    ensures 1 <= |s| <= 4
  {
    if b == BACKSLASH || b == QUOTE then [BACKSLASH, b]
    else if Letter(b).Some? then [BACKSLASH, Letter(b).value]
    else if IsPrint(b) then [b]
    else [BACKSLASH, 120, HexDigit(b / 16), HexDigit(b % 16)]
  }

  function Escape(w: seq<Byte>): seq<Byte> { if w == [] then [] else EscapeByte(w[0]) + Escape(w[1..]) }

  function Repr(w: seq<Byte>): seq<Byte> { [QUOTE] + Escape(w) + [QUOTE] }

  /** The switch of sdscatrepr. */
  method CatByte(s: seq<Byte>, b: Byte) returns (r: seq<Byte>)
    ensures r == s + EscapeByte(b)
  {
    match b
    case 92 => r := s + [BACKSLASH, b];
    case 34 => r := s + [BACKSLASH, b];
    case 10 => r := s + [BACKSLASH, 110];
    case 13 => r := s + [BACKSLASH, 114];
    case 9 => r := s + [BACKSLASH, 116];
    case 7 => r := s + [BACKSLASH, 97];
    case 8 => r := s + [BACKSLASH, 98];
    case _ =>
      if IsPrint(b) {
        r := s + [b];
      } else {
        r := s + [BACKSLASH, 120, HexDigit(b / 16), HexDigit(b % 16)];
      }
  }

  /** sdscatrepr. */
  method SdsCatRepr(s: seq<Byte>, p: seq<Byte>) returns (r: seq<Byte>)
    ensures r == s + Repr(p)
  {
    hide EscapeByte;
    r := s + [QUOTE];
    var i := 0;
    assert p[0..] == p;
    while i < |p|
      invariant 0 <= i <= |p| && r + Escape(p[i..]) == s + [QUOTE] + Escape(p)
    {
      r := CatByte(r, p[i]);
      assert p[i..][1..] == p[i + 1..];
      i := i + 1;
    }
    assert r + [] == r;
    r := r + [QUOTE];
  }

  // ----- Splitting

  /** The byte at i; behind the end there is the NUL. */
  function At(s: seq<Byte>, i: nat): (b: Byte)
    ensures b != NUL ==> i < |s|
  {
    if i < |s| then s[i] else NUL
  }

  predicate IsHex(b: Byte) { 48 <= b <= 57 || 97 <= b <= 102 || 65 <= b <= 70 }

  /** hex_digit_to_int. */
  function HexVal(b: Byte): (n: nat)
    ensures n < 16
  {
    if 48 <= b <= 57 then b - 48 else if 97 <= b <= 102 then b - 87 else if 65 <= b <= 70 then b - 55 else 0
  }

  function Unescape(b: Byte): Byte {
    if b == 110 then 10 else if b == 114 then 13 else if b == 116 then 9
    else if b == 98 then 8 else if b == 97 then 7 else b
  }

  datatype Mode = Plain | Quoted | Single

  datatype Scan = Token(text: seq<Byte>, next: nat) | Unbalanced

  predicate IsEscape(s: seq<Byte>, p: nat) {
    At(s, p) == BACKSLASH && At(s, p + 1) == 120 && IsHex(At(s, p + 2)) && IsHex(At(s, p + 3))
  }

  /** A quote closes the token only at the end of the line or before a blank. */
  function Close(s: seq<Byte>, p: nat, cur: seq<Byte>): Scan {
    if At(s, p + 1) != NUL && !IsSpace(At(s, p + 1)) then Unbalanced else Token(cur, p + 1)
  }

  function Scanned(s: seq<Byte>, p: nat, mode: Mode, cur: seq<Byte>): (r: Scan)
    requires p <= |s|
    ensures r.Token? ==> p <= r.next <= |s|
    ensures r.Token? && (mode != Plain || At(s, p) !in {SPACE, 10, 13, 9, NUL}) ==> p < r.next
    decreases |s| - p
  {
    var b := At(s, p);
    match mode
    case Quoted =>
      if IsEscape(s, p) then Scanned(s, p + 4, mode, cur + [HexVal(At(s, p + 2)) * 16 + HexVal(At(s, p + 3))])
      else if b == BACKSLASH && At(s, p + 1) != NUL then Scanned(s, p + 2, mode, cur + [Unescape(At(s, p + 1))])
      else if b == QUOTE then Close(s, p, cur)
      else if b == NUL then Unbalanced
      else Scanned(s, p + 1, mode, cur + [b])
    case Single =>
      if b == BACKSLASH && At(s, p + 1) == APOSTROPHE then Scanned(s, p + 2, mode, cur + [APOSTROPHE])
      else if b == APOSTROPHE then Close(s, p, cur)
      else if b == NUL then Unbalanced
      else Scanned(s, p + 1, mode, cur + [b])
    case Plain =>
      if b in {SPACE, 10, 13, 9} then Token(cur, p + 1)
      else if b == NUL then Token(cur, p)
      else if b == QUOTE then Scanned(s, p + 1, Quoted, cur)
      else if b == APOSTROPHE then Scanned(s, p + 1, Single, cur)
      else Scanned(s, p + 1, Plain, cur + [b])
  }

  function Skip(s: seq<Byte>, p: nat): (q: nat)
    requires p <= |s|
    ensures p <= q <= |s| && (At(s, q) == NUL || !IsSpace(At(s, q)))
    decreases |s| - p
  {
    if At(s, p) != NUL && IsSpace(At(s, p)) then Skip(s, p + 1) else p
  }

  /** The arguments from p on, or None when quotes are unbalanced. */
  function Split(s: seq<Byte>, p: nat): Option<seq<seq<Byte>>>
    requires p <= |s|
    decreases |s| - p
  {
    var q := Skip(s, p);
    if At(s, q) == NUL then Some([]) else
      match Scanned(s, q, Plain, [])
      case Unbalanced => None
      case Token(text, next) => match Split(s, next) case None => None case Some(more) => Some([text] + more)
  }

  // ----- The splitter as it runs

  /** The result when these arguments have been found before. */
  ghost function Found(vector: seq<seq<Byte>>, more: Option<seq<seq<Byte>>>): Option<seq<seq<Byte>>> {
    match more case None => None case Some(rest) => Some(vector + rest)
  }

  /** The loop that reads one token, with the two quote flags. */
  method ReadToken(s: seq<Byte>, start: nat) returns (r: Scan)
    requires start <= |s|
    ensures r == Scanned(s, start, Plain, [])
  {
    var p, inq, insq := start, false, false;
    var current: seq<Byte> := [];
    while true
      invariant start <= p <= |s| && !(inq && insq)
      invariant Scanned(s, start, Plain, [])
             == Scanned(s, p, if inq then Quoted else if insq then Single else Plain, current)
      decreases |s| - p
    {
      if inq {
        if At(s, p) == BACKSLASH && At(s, p + 1) == 120 && IsHex(At(s, p + 2)) && IsHex(At(s, p + 3)) {
          current := current + [HexVal(At(s, p + 2)) * 16 + HexVal(At(s, p + 3))];
          p := p + 3;
        } else if At(s, p) == BACKSLASH && At(s, p + 1) != NUL {
          p := p + 1;
          current := current + [Unescape(At(s, p))];
        } else if At(s, p) == QUOTE {
          if At(s, p + 1) != NUL && !IsSpace(At(s, p + 1)) { return Unbalanced; }
          return Token(current, p + 1);
        } else if At(s, p) == NUL {
          return Unbalanced;
        } else {
          current := current + [At(s, p)];
        }
      } else if insq {
        if At(s, p) == BACKSLASH && At(s, p + 1) == APOSTROPHE {
          p := p + 1;
          current := current + [APOSTROPHE];
        } else if At(s, p) == APOSTROPHE {
          if At(s, p + 1) != NUL && !IsSpace(At(s, p + 1)) { return Unbalanced; }
          return Token(current, p + 1);
        } else if At(s, p) == NUL {
          return Unbalanced;
        } else {
          current := current + [At(s, p)];
        }
      } else {
        if At(s, p) in {SPACE, 10, 13, 9} { return Token(current, p + 1); }
        if At(s, p) == NUL { return Token(current, p); }
        if At(s, p) == QUOTE {
          inq := true;
        } else if At(s, p) == APOSTROPHE {
          insq := true;
        } else {
          current := current + [At(s, p)];
        }
      }
      p := p + 1;
    }
  }

  /** sdssplitargs. */
  method SdsSplitArgs(line: seq<Byte>) returns (r: Option<seq<seq<Byte>>>)
    ensures r == Split(line, 0)
  {
    hide Scanned, Skip;
    var p, vector := 0, [];
    assert forall more: seq<seq<Byte>> :: [] + more == more;
    while true
      invariant p <= |line| && Split(line, 0) == Found(vector, Split(line, p))
      decreases |line| - p
    {
      p := SkipBlanks(line, p);
      if At(line, p) == NUL {
        assert vector + [] == vector;
        return Some(vector);
      }
      var t := ReadToken(line, p);
      if t.Unbalanced? { return None; }
      assert forall more :: vector + ([t.text] + more) == vector + [t.text] + more;
      vector := vector + [t.text];
      p := t.next;
    }
  }

  /** The loop that skips blanks: splitting from where it ends is splitting from where it began. */
  method SkipBlanks(s: seq<Byte>, start: nat) returns (p: nat)
    requires start <= |s|
    ensures p == Skip(s, start) && p == Skip(s, p) && Split(s, p) == Split(s, start)
  {
    p := start;
    while At(s, p) != NUL && IsSpace(At(s, p))
      invariant start <= p <= |s| && Skip(s, start) == Skip(s, p)
      decreases |s| - p
    {
      p := p + 1;
    }
  }

  // ----- The round trip

  /** The quoted strings with a space between them. */
  function Joined(ws: seq<seq<Byte>>): seq<Byte> {
    if ws == [] then [] else if |ws| == 1 then Repr(ws[0]) else Repr(ws[0]) + [SPACE] + Joined(ws[1..])
  }

  ghost predicate Reads(s: seq<Byte>, p: nat, t: seq<Byte>) { p + |t| <= |s| && s[p..p + |t|] == t }

  lemma ReadsAt(s: seq<Byte>, p: nat, t: seq<Byte>, i: nat)
    requires Reads(s, p, t) && i < |t|
    ensures At(s, p + i) == t[i]
  {
    assert s[p..p + |t|][i] == s[p + i];
  }

  lemma ReadsSplit(s: seq<Byte>, p: nat, t: seq<Byte>, u: seq<Byte>)
    requires Reads(s, p, t + u)
    ensures Reads(s, p, t) && Reads(s, p + |t|, u)
  {
    assert s[p..p + |t| + |u|][..|t|] == s[p..p + |t|];
    assert s[p..p + |t| + |u|][|t|..] == s[p + |t|..p + |t| + |u|];
  }

  lemma HexReads(b: Byte)
    ensures IsHex(HexDigit(b / 16)) && IsHex(HexDigit(b % 16))
    ensures HexVal(HexDigit(b / 16)) * 16 + HexVal(HexDigit(b % 16)) == b
  {
  }

  /** One byte that was escaped is read back. */
  lemma EscapedByteScans(s: seq<Byte>, p: nat, b: Byte, cur: seq<Byte>)
    requires Reads(s, p, EscapeByte(b))
    ensures Scanned(s, p, Quoted, cur) == Scanned(s, p + |EscapeByte(b)|, Quoted, cur + [b])
  {
    var t := EscapeByte(b);
    ReadsAt(s, p, t, 0);
    if |t| > 1 { ReadsAt(s, p, t, 1); }
    if |t| > 2 {
      HexReads(b);
      ReadsAt(s, p, t, 2);
      ReadsAt(s, p, t, 3);
    }
  }

  lemma {:induction false} EscapedScans(s: seq<Byte>, p: nat, w: seq<Byte>, cur: seq<Byte>)
    requires Reads(s, p, Escape(w))
    ensures Scanned(s, p, Quoted, cur) == Scanned(s, p + |Escape(w)|, Quoted, cur + w)
    decreases |w|
  {
    hide Scanned, EscapeByte;
    if w == [] {
      assert cur + w == cur;
    } else {
      ReadsSplit(s, p, EscapeByte(w[0]), Escape(w[1..]));
      EscapedByteScans(s, p, w[0], cur);
      EscapedScans(s, p + |EscapeByte(w[0])|, w[1..], cur + [w[0]]);
      assert cur + [w[0]] + w[1..] == cur + w;
    }
  }

  /** A quoted string followed by a space or nothing is one token, the string itself. */
  lemma ReprScans(s: seq<Byte>, p: nat, w: seq<Byte>)
    requires Reads(s, p, Repr(w)) && (At(s, p + |Repr(w)|) == NUL || IsSpace(At(s, p + |Repr(w)|)))
    ensures At(s, p) == QUOTE && Scanned(s, p, Plain, []) == Token(w, p + |Repr(w)|)
  {
    hide Escape;
    assert Repr(w) == [QUOTE] + (Escape(w) + [QUOTE]);
    ReadsSplit(s, p, [QUOTE], Escape(w) + [QUOTE]);
    ReadsSplit(s, p + 1, Escape(w), [QUOTE]);
    ReadsAt(s, p, [QUOTE], 0);
    ReadsAt(s, p + 1 + |Escape(w)|, [QUOTE], 0);
    EscapedScans(s, p + 1, w, []);
    assert [] + w == w;
  }

  /** What splitting does at a quoted string that is followed by a space or nothing. */
  lemma SplitAtRepr(s: seq<Byte>, p: nat, w: seq<Byte>, more: seq<Byte>)
    requires p <= |s| && s[p..] == Repr(w) + more && (more == [] || IsSpace(more[0]))
    ensures var q := p + |Repr(w)|; q <= |s| && s[q..] == more && Split(s, p) == Found([w], Split(s, q))
  {
    hide Scanned, Repr;
    var q := p + |Repr(w)|;
    assert Reads(s, p, Repr(w) + more);
    ReadsSplit(s, p, Repr(w), more);
    assert s[q..] == more;
    if more != [] { ReadsAt(s, q, more, 0); }
    ReprScans(s, p, w);
  }

  lemma SplitSkips(s: seq<Byte>, q: nat)
    requires q < |s| && s[q] == SPACE
    ensures Split(s, q) == Split(s, q + 1)
  {
    hide Scanned;
    assert Skip(s, q) == Skip(s, q + 1);
  }

  /** Splitting the space-joined quoted strings gives the strings back. */
  lemma {:induction false} SplitsBack(s: seq<Byte>, p: nat, ws: seq<seq<Byte>>)
    requires p <= |s| && s[p..] == Joined(ws)
    ensures Split(s, p) == Some(ws)
    decreases |ws|
  {
    hide Split, Repr, Joined;
    if ws == [] {
      NothingToSplit(s, p);
    } else {
      var w, more := ws[0], if |ws| == 1 then [] else [SPACE] + Joined(ws[1..]);
      JoinedStep(ws);
      SplitAtRepr(s, p, w, more);
      var q := p + |Repr(w)|;
      assert ws == [w] + ws[1..];
      if |ws| == 1 {
        NothingToSplit(s, q);
      } else {
        AfterSpace(s, q, Joined(ws[1..]));
        SplitsBack(s, q + 1, ws[1..]);
      }
    }
  }

  lemma JoinedStep(ws: seq<seq<Byte>>)
    requires ws != []
    ensures Joined(ws) == Repr(ws[0]) + if |ws| == 1 then [] else [SPACE] + Joined(ws[1..])
  {
    hide Repr;
  }

  lemma NothingToSplit(s: seq<Byte>, p: nat)
    requires p <= |s| && (s[p..] == [] || s[p..] == Joined([]))
    ensures Split(s, p) == Some([])
  {
  }

  lemma AfterSpace(s: seq<Byte>, q: nat, rest: seq<Byte>)
    requires q <= |s| && s[q..] == [SPACE] + rest
    ensures q + 1 <= |s| && s[q + 1..] == rest && Split(s, q) == Split(s, q + 1)
  {
    hide Split;
    assert s[q] == s[q..][0] == SPACE;
    assert s[q + 1..] == s[q..][1..] == rest;
    SplitSkips(s, q);
  }

  /** For every list of byte strings, whatever bytes they hold. */
  lemma QuoteRoundTrip(ws: seq<seq<Byte>>)
    ensures Split(Joined(ws), 0) == Some(ws)
  {
    assert Joined(ws)[0..] == Joined(ws);
    SplitsBack(Joined(ws), 0, ws);
  }
}
