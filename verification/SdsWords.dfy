/**
 Command lines as people write them: words bare, in double quotes or in single quotes, in any mixture, are split into
 exactly the words meant.
 */
module SdsWords {
  import opened Optional
  import opened Bytes
  import opened SdsQuote

  datatype Form = Bare | Double | Singled

  datatype Word = Word(form: Form, text: seq<Byte>)

  /** Between apostrophes only the apostrophe is escaped. */
  function Ticked(w: seq<Byte>): seq<Byte> {
    if w == [] then [] else (if w[0] == APOSTROPHE then [BACKSLASH, APOSTROPHE] else [w[0]]) + Ticked(w[1..])
  }

  function Written(x: Word): seq<Byte> {
    match x.form
    case Bare => x.text
    case Double => Repr(x.text)
    case Singled => [APOSTROPHE] + Ticked(x.text) + [APOSTROPHE]
  }

  /** A byte that neither ends a bare word nor opens a quote. */
  predicate IsPlain(b: Byte) { b !in {NUL, SPACE, 9, 10, 13, QUOTE, APOSTROPHE} }

  /**
   A bare word has a byte, does not begin with a blank, and holds only plain bytes; between apostrophes there is no way
   to write a NUL or a last backslash; between double quotes anything can be written.
   */
  predicate CanWrite(x: Word) {
    match x.form
    case Bare => x.text != [] && !IsSpace(x.text[0]) && forall i :: 0 <= i < |x.text| ==> IsPlain(x.text[i])
    case Double => true
    case Singled => NUL !in x.text && (x.text != [] ==> x.text[|x.text| - 1] != BACKSLASH)
  }

  function Line(xs: seq<Word>): seq<Byte> {
    if xs == [] then [] else if |xs| == 1 then Written(xs[0]) else Written(xs[0]) + [SPACE] + Line(xs[1..])
  }

  function Texts(xs: seq<Word>): seq<seq<Byte>> { if xs == [] then [] else [xs[0].text] + Texts(xs[1..]) }

  // ----- Bare words

  lemma {:induction false} BareScans(s: seq<Byte>, p: nat, w: seq<Byte>, cur: seq<Byte>)
    requires Reads(s, p, w) && forall i :: 0 <= i < |w| ==> IsPlain(w[i])
    requires At(s, p + |w|) == NUL || At(s, p + |w|) == SPACE
    ensures var q := p + |w|; Scanned(s, p, Plain, cur) == Token(cur + w, if At(s, q) == SPACE then q + 1 else q)
    decreases |w|
  {
    if w == [] {
      assert cur + w == cur;
    } else {
      assert w == [w[0]] + w[1..];
      ReadsSplit(s, p, [w[0]], w[1..]);
      ReadsAt(s, p, w, 0);
      BareScans(s, p + 1, w[1..], cur + [w[0]]);
      assert cur + [w[0]] + w[1..] == cur + w;
    }
  }

  // ----- Words between apostrophes

  /** One byte between apostrophes is read back, unless it is a NUL or a backslash just before the closing one. */
  lemma TickedByteScans(s: seq<Byte>, p: nat, w: seq<Byte>, cur: seq<Byte>)
    requires w != [] && Reads(s, p, Ticked(w) + [APOSTROPHE]) && w[0] != NUL && !(w[0] == BACKSLASH && |w| == 1)
    ensures var n := if w[0] == APOSTROPHE then 2 else 1;
      && Scanned(s, p, Single, cur) == Scanned(s, p + n, Single, cur + [w[0]])
      && Reads(s, p + n, Ticked(w[1..]) + [APOSTROPHE]) && |Ticked(w)| == n + |Ticked(w[1..])|
  {
    var first := if w[0] == APOSTROPHE then [BACKSLASH, APOSTROPHE] else [w[0]];
    var rest := Ticked(w[1..]) + [APOSTROPHE];
    assert Ticked(w) + [APOSTROPHE] == first + rest;
    ReadsSplit(s, p, first, rest);
    ReadsAt(s, p, first, 0);
    if |first| > 1 { ReadsAt(s, p, first, 1); }
    ReadsAt(s, p + |first|, rest, 0);
    if w[0] == BACKSLASH { assert rest[0] != APOSTROPHE; }
  }

  lemma {:induction false} TickedScans(s: seq<Byte>, p: nat, w: seq<Byte>, cur: seq<Byte>)
    requires Reads(s, p, Ticked(w) + [APOSTROPHE]) && CanWrite(Word(Singled, w))
    ensures Scanned(s, p, Single, cur) == Close(s, p + |Ticked(w)|, cur + w)
    decreases |w|
  {
    hide Ticked, Close;
    if w == [] {
      TickedNone();
      assert Ticked(w) + [APOSTROPHE] == [APOSTROPHE];
      ReadsAt(s, p, [APOSTROPHE], 0);
      assert cur + w == cur;
    } else {
      hide Scanned;
      TickedByteScans(s, p, w, cur);
      TickedScans(s, if w[0] == APOSTROPHE then p + 2 else p + 1, w[1..], cur + [w[0]]);
      assert cur + [w[0]] + w[1..] == cur + w;
    }
  }

  lemma TickedNone()
    ensures Ticked([]) == []
  {
  }

  /** With a NUL or a last backslash the closing apostrophe is never found. */
  lemma {:induction false} TickedFails(s: seq<Byte>, p: nat, w: seq<Byte>, cur: seq<Byte>)
    requires Reads(s, p, Ticked(w) + [APOSTROPHE]) && !CanWrite(Word(Singled, w)) && p + |Ticked(w)| + 1 == |s|
    ensures Scanned(s, p, Single, cur) == Unbalanced
    decreases |w|
  {
    if w[0] == NUL {
      assert (Ticked(w) + [APOSTROPHE])[0] == NUL;
      ReadsAt(s, p, Ticked(w) + [APOSTROPHE], 0);
    } else if w[0] == BACKSLASH && |w| == 1 {
      assert w[1..] == [] && Ticked(w) + [APOSTROPHE] == [BACKSLASH, APOSTROPHE];
      ReadsAt(s, p, [BACKSLASH, APOSTROPHE], 0);
      ReadsAt(s, p, [BACKSLASH, APOSTROPHE], 1);
    } else {
      hide Ticked, Scanned;
      TickedByteScans(s, p, w, cur);
      TickedFails(s, if w[0] == APOSTROPHE then p + 2 else p + 1, w[1..], cur + [w[0]]);
    }
  }

  // ----- Any form

  /** A word that can be written, followed by a space or nothing, is one token, the word. */
  lemma WrittenScans(s: seq<Byte>, p: nat, x: Word)
    requires CanWrite(x) && Reads(s, p, Written(x))
    requires At(s, p + |Written(x)|) == NUL || At(s, p + |Written(x)|) == SPACE
    ensures var q := p + |Written(x)|;
      && At(s, p) != NUL && !IsSpace(At(s, p))
      && Scanned(s, p, Plain, []) == Token(x.text, if x.form.Bare? && At(s, q) == SPACE then q + 1 else q)
  {
    hide Scanned, Repr, Reads, Ticked;
    var w := x.text;
    match x.form
    case Bare =>
      BareScans(s, p, w, []);
      ReadsAt(s, p, w, 0);
      assert [] + w == w;
    case Double => ReprScans(s, p, w);
    case Singled => SingledScans(s, p, w);
  }

  lemma SingledScans(s: seq<Byte>, p: nat, w: seq<Byte>)
    requires CanWrite(Word(Singled, w)) && Reads(s, p, Written(Word(Singled, w)))
    requires At(s, p + |Written(Word(Singled, w))|) in {NUL, SPACE}
    ensures At(s, p) == APOSTROPHE && Scanned(s, p, Plain, []) == Token(w, p + |Written(Word(Singled, w))|)
  {
    hide Ticked;
    var body := Ticked(w) + [APOSTROPHE];
    assert Written(Word(Singled, w)) == [APOSTROPHE] + body;
    ReadsSplit(s, p, [APOSTROPHE], body);
    ReadsAt(s, p, [APOSTROPHE], 0);
    TickedScans(s, p + 1, w, []);
    assert [] + w == w;
  }

  lemma SplitAtWritten(s: seq<Byte>, p: nat, x: Word, more: seq<Byte>)
    requires p <= |s| && s[p..] == Written(x) + more && CanWrite(x) && (more == [] || more[0] == SPACE)
    ensures var q := p + |Written(x)|; q <= |s| && s[q..] == more && Split(s, p) == Found([x.text], Split(s, q))
  {
    hide Scanned, Written, CanWrite;
    var q := p + |Written(x)|;
    assert Reads(s, p, Written(x) + more);
    ReadsSplit(s, p, Written(x), more);
    assert s[q..] == more;
    if more != [] { ReadsAt(s, q, more, 0); }
    WrittenScans(s, p, x);
    if more != [] { SplitSkips(s, q); }
  }

  lemma LineStep(xs: seq<Word>)
    requires xs != []
    ensures Line(xs) == Written(xs[0]) + if |xs| == 1 then [] else [SPACE] + Line(xs[1..])
  {
    hide Written;
  }

  lemma {:induction false} LineSplits(s: seq<Byte>, p: nat, xs: seq<Word>)
    requires p <= |s| && s[p..] == Line(xs) && forall i :: 0 <= i < |xs| ==> CanWrite(xs[i])
    ensures Split(s, p) == Some(Texts(xs))
    decreases |xs|
  {
    hide Split, Written, Line, CanWrite;
    if xs == [] {
      LineNone();
      NothingToSplit(s, p);
    } else {
      var more := if |xs| == 1 then [] else [SPACE] + Line(xs[1..]);
      LineStep(xs);
      SplitAtWritten(s, p, xs[0], more);
      var q := p + |Written(xs[0])|;
      if |xs| == 1 {
        NothingToSplit(s, q);
      } else {
        AfterSpace(s, q, Line(xs[1..]));
        LineSplits(s, q + 1, xs[1..]);
      }
    }
  }

  lemma LineNone()
    ensures Line([]) == []
  {
  }

  /** Words in any mixture of the three forms, with a space between them, are split into exactly those words. */
  lemma MixedRoundTrip(xs: seq<Word>)
    requires forall i :: 0 <= i < |xs| ==> CanWrite(xs[i])
    ensures Split(Line(xs), 0) == Some(Texts(xs))
  {
    assert Line(xs)[0..] == Line(xs);
    LineSplits(Line(xs), 0, xs);
  }

  // ----- Exactly the words that can be written

  /** A token is no longer than what it was read from, and as long only when every byte stood for itself. */
  lemma {:induction false} Budget(s: seq<Byte>, p: nat, mode: Mode, cur: seq<Byte>)
    requires p <= |s| && Scanned(s, p, mode, cur).Token?
    ensures var t := Scanned(s, p, mode, cur);
      && |t.text| - |cur| <= t.next - p && (mode != Plain ==> |t.text| - |cur| < t.next - p)
      && (|t.text| - |cur| == t.next - p ==> forall i :: p <= i < t.next ==> IsPlain(s[i]))
    decreases |s| - p
  {
    var b := At(s, p);
    match mode
    case Quoted =>
      if IsEscape(s, p) { Budget(s, p + 4, mode, cur + [HexVal(At(s, p + 2)) * 16 + HexVal(At(s, p + 3))]); }
      else if b == BACKSLASH && At(s, p + 1) != NUL { Budget(s, p + 2, mode, cur + [Unescape(At(s, p + 1))]); }
      else if b != QUOTE && b != NUL { Budget(s, p + 1, mode, cur + [b]); }
    case Single =>
      if b == BACKSLASH && At(s, p + 1) == APOSTROPHE { Budget(s, p + 2, mode, cur + [APOSTROPHE]); }
      else if b != APOSTROPHE && b != NUL { Budget(s, p + 1, mode, cur + [b]); }
    case Plain =>
      if b == QUOTE { Budget(s, p + 1, Quoted, cur); }
      else if b == APOSTROPHE { Budget(s, p + 1, Single, cur); }
      else if IsPlain(b) { Budget(s, p + 1, Plain, cur + [b]); }
  }

  /** A line that is split into itself is a bare word. */
  lemma OnlyBare(w: seq<Byte>)
    requires Split(w, 0) == Some([w])
    ensures CanWrite(Word(Bare, w))
  {
    hide Scanned;
    var q := Skip(w, 0);
    var t := Scanned(w, q, Plain, []);
    assert t.Token? && [w][0] == w;
    if Split(w, t.next).Some? { assert ([t.text] + Split(w, t.next).value)[0] == t.text; }
    Budget(w, q, Plain, []);
  }

  /** Alone on a line, a word comes back if and only if it can be written in that form. */
  lemma WordExactly(x: Word)
    ensures Split(Written(x), 0) == Some([x.text]) <==> CanWrite(x)
  {
    hide Split, CanWrite, Ticked, Repr;
    DoubleAlways(x.text);
    if CanWrite(x) {
      MixedRoundTrip([x]);
      assert [x][1..] == [] && Texts([]) == [];
      assert Texts([x]) == [x.text];
      assert Line([x]) == Written(x);
    } else if x.form.Bare? {
      if Split(x.text, 0) == Some([x.text]) { OnlyBare(x.text); }
    } else {
      TickLost(x.text);
    }
  }

  lemma DoubleAlways(w: seq<Byte>)
    ensures CanWrite(Word(Double, w))
  {
  }

  lemma TickLost(w: seq<Byte>)
    requires !CanWrite(Word(Singled, w))
    ensures Split(Written(Word(Singled, w)), 0) == None
  {
    hide Ticked;
    var s, body := Written(Word(Singled, w)), Ticked(w) + [APOSTROPHE];
    assert s == [APOSTROPHE] + body;
    assert s[1..1 + |body|] == body;
    TickedFails(s, 1, w, []);
  }

  /** The word of one backslash cannot be put between apostrophes. */
  lemma BackslashIsLost()
    ensures Split([APOSTROPHE, BACKSLASH, APOSTROPHE], 0) == None
  {
    var x := Word(Singled, [BACKSLASH]);
    assert [BACKSLASH][1..] == [];
    TickedNone();
    assert Ticked([BACKSLASH]) == [BACKSLASH];
    assert Written(x) == [APOSTROPHE, BACKSLASH, APOSTROPHE];
    TickLost([BACKSLASH]);
  }

  /** A quoted word with anything but a blank right behind it makes the whole line invalid. */
  lemma JunkBehindQuote(w: seq<Byte>, junk: seq<Byte>)
    requires junk != [] && junk[0] != NUL && !IsSpace(junk[0])
    ensures Split(Repr(w) + junk, 0) == None
  {
    hide Escape;
    var s := Repr(w) + junk;
    var body := Escape(w) + [QUOTE] + junk;
    assert s == [QUOTE] + body;
    assert Reads(s, 1, Escape(w));
    EscapedScans(s, 1, w, []);
    assert At(s, 1 + |Escape(w)|) == QUOTE && At(s, 2 + |Escape(w)|) == junk[0];
  }

  // ----- What the quoted form looks like

  lemma EscapedPrints(b: Byte)
    ensures forall i :: 0 <= i < |EscapeByte(b)| ==> IsPrint(EscapeByte(b)[i])
  {
  }

  /** The quoted form holds only printable bytes, whatever the string holds. */
  lemma {:induction false} ReprPrints(w: seq<Byte>)
    ensures forall i :: 0 <= i < |Repr(w)| ==> IsPrint(Repr(w)[i])
  {
    EscapePrints(w);
  }

  lemma {:induction false} EscapePrints(w: seq<Byte>)
    ensures forall i :: 0 <= i < |Escape(w)| ==> IsPrint(Escape(w)[i])
    decreases |w|
  {
    hide EscapeByte;
    if w != [] {
      EscapedPrints(w[0]);
      EscapePrints(w[1..]);
    }
  }

  /** Printable text without quotes and backslashes is only put between quotes. */
  lemma {:induction false} PrintableStands(w: seq<Byte>)
    requires forall i :: 0 <= i < |w| ==> IsPrint(w[i]) && w[i] != QUOTE && w[i] != BACKSLASH
    ensures Repr(w) == [QUOTE] + w + [QUOTE]
    decreases |w|
  {
    if w != [] {
      PrintableStands(w[1..]);
      assert Repr(w[1..])[1..|Repr(w[1..])| - 1] == Escape(w[1..]);
      assert ([QUOTE] + w[1..] + [QUOTE])[1..|w|] == w[1..];
      assert [w[0]] + w[1..] == w;
    }
  }
}
