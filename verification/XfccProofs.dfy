/** What the forwarded-certificate header parser guarantees, over all headers. */
module XfccProofs {
  import opened Text
  import opened Wrappers
  import opened Xfcc

  // ---------- The quote state over concatenations ----------

  lemma ScanSnoc(st: QuoteState, s: string, c: char)
    ensures Scan(st, s + [c]) == Step(Scan(st, s), c)
    ensures Scan(st, [c]) == Step(st, c)
  {
    assert (s + [c])[..|s|] == s;
    assert [c][..0] == [];
  }

  lemma {:induction false} ScanConcat(st: QuoteState, a: string, b: string)
    ensures Scan(st, a + b) == Scan(Scan(st, a), b)
  {
    if b == [] {
      assert a + b == a;
    } else {
      var front, c := b[..|b| - 1], b[|b| - 1];
      ScanConcat(st, a, front);
      assert a + b == (a + front) + [c];
      ScanSnoc(st, a + front, c);
    }
  }

  /** An escape is only ever open inside quotes. */
  lemma {:induction false} EscapeOnlyInQuotes(st: QuoteState, s: string)
    requires st.escaped ==> st.inQuotes
    ensures Scan(st, s).escaped ==> Scan(st, s).inQuotes
  {
    if s != [] {
      EscapeOnlyInQuotes(st, s[..|s| - 1]);
    }
  }

  /** Blanks change nothing but an open escape. */
  lemma {:induction false} ScanBlanks(st: QuoteState, blanks: string)
    requires AllIn(blanks, SPACE)
    ensures Scan(st, blanks) == if blanks == [] then st else st.(escaped := false)
  {
    if blanks != [] {
      assert blanks[|blanks| - 1] in SPACE;
      ScanBlanks(st, blanks[..|blanks| - 1]);
    }
  }

  /** Text that is back outside after trailing blanks was outside before them. */
  lemma OutsideBeforeBlanks(st: QuoteState, blanks: string)
    requires AllIn(blanks, SPACE) && Scan(st, blanks) == OUTSIDE
    requires st.escaped ==> st.inQuotes
    ensures st == OUTSIDE
  {
    ScanBlanks(st, blanks);
  }

  lemma WithoutTrailingBlanks(text: string, blanks: string)
    requires Balanced(text + blanks) && AllIn(blanks, SPACE)
    ensures Balanced(text)
  {
    ScanConcat(OUTSIDE, text, blanks);
    EscapeOnlyInQuotes(OUTSIDE, text);
    OutsideBeforeBlanks(Scan(OUTSIDE, text), blanks);
  }

  lemma TrimKeepsBalance(s: string)
    requires Balanced(s)
    ensures Balanced(TrimSpace(s))
  {
    var left, right := TrimParts(s, SPACE);
    var t := TrimSpace(s);
    WithoutTrailingBlanks(left + t, right);
    ScanConcat(OUTSIDE, left, t);
    ScanBlanks(OUTSIDE, left);
  }

  // ---------- Splitting is lossless ----------

  /** No separator outside quotes, reading from the given state. */
  predicate CutFree(st: QuoteState, s: string, sep: char) {
    s == [] || (CutFree(st, s[..|s| - 1], sep) && !Separates(Scan(st, s[..|s| - 1]), s[|s| - 1], sep))
  }

  lemma CutFreeSnoc(st: QuoteState, s: string, c: char, sep: char)
    ensures CutFree(st, s + [c], sep) <==> CutFree(st, s, sep) && !Separates(Scan(st, s), c, sep)
    ensures CutFree(st, [c], sep) <==> !Separates(st, c, sep)
  {
    assert (s + [c])[..|s|] == s;
    assert [c][..0] == [];
  }

  lemma {:induction false} CutFreeConcat(st: QuoteState, a: string, b: string, sep: char)
    ensures CutFree(st, a + b, sep) <==> CutFree(st, a, sep) && CutFree(Scan(st, a), b, sep)
  {
    if b == [] {
      assert a + b == a;
    } else {
      var front, c := b[..|b| - 1], b[|b| - 1];
      CutFreeConcat(st, a, front, sep);
      assert a + b == (a + front) + [c];
      CutFreeSnoc(st, a + front, c, sep);
      ScanConcat(st, a, front);
    }
  }

  /** Both facts at once, over a concatenation read from outside. */
  lemma {:induction false} Chain(st: QuoteState, a: string, b: string, sep: char)
    ensures Scan(st, a + b) == Scan(Scan(st, a), b)
    ensures CutFree(st, a + b, sep) <==> CutFree(st, a, sep) && CutFree(Scan(st, a), b, sep)
  {
    ScanConcat(st, a, b);
    CutFreeConcat(st, a, b, sep);
  }

  /** A way of cutting the text: nothing lost, every cut outside quotes, no cut missed. */
  predicate IsSplit(ps: seq<string>, s: string, sep: char) {
    && |ps| >= 1
    && Join(ps, sep) == s
    && (forall i :: 0 <= i < |ps| ==> CutFree(OUTSIDE, ps[i], sep))
    && (forall i :: 0 <= i < |ps| - 1 ==> Balanced(ps[i]))
  }

  function UnquotedSeparators(s: string, sep: char): nat {
    if s == [] then 0
    else
      var front := s[..|s| - 1];
      UnquotedSeparators(front, sep) + (if Separates(Scan(OUTSIDE, front), s[|s| - 1], sep) then 1 else 0)
  }

  lemma {:induction false} JoinSnoc(ps: seq<string>, p: string, tail: string, sep: char)
    ensures Join(ps + [p + tail], sep) == Join(ps + [p], sep) + tail
    ensures Join(ps + [p, tail], sep) == Join(ps + [p], sep) + [sep] + tail
  {
    if ps != [] {
      JoinSnoc(ps[1..], p, tail, sep);
      assert (ps + [p + tail])[1..] == ps[1..] + [p + tail];
      assert (ps + [p])[1..] == ps[1..] + [p];
      assert (ps + [p, tail])[1..] == ps[1..] + [p, tail];
    }
  }

  /** The pieces are such a cutting; the last one carries the quote state of the whole text. */
  lemma {:induction false} PiecesAreSplit(s: string, sep: char)
    ensures IsSplit(Pieces(s, sep), s, sep)
    ensures |Pieces(s, sep)| == UnquotedSeparators(s, sep) + 1
    ensures var ps := Pieces(s, sep); Scan(OUTSIDE, ps[|ps| - 1]) == Scan(OUTSIDE, s)
  {
    if s != [] {
      var front, c := s[..|s| - 1], s[|s| - 1];
      PiecesAreSplit(front, sep);
      assert s == front + [c];
      var ps := Pieces(front, sep);
      assert ps == ps[..|ps| - 1] + [ps[|ps| - 1]];
      ExtendSplit(ps[..|ps| - 1], ps[|ps| - 1], front, c, sep);
    }
  }

  lemma SplitAtCut(init: seq<string>, last: string, front: string, sep: char)
    requires IsSplit(init + [last], front, sep) && Balanced(last)
    ensures IsSplit(init + [last, []], front + [sep], sep)
  {
    var ps, qs := init + [last], init + [last, []];
    JoinSnoc(init, last, [], sep);
    assert front + [sep] + [] == front + [sep];
    forall i | 0 <= i < |qs| ensures CutFree(OUTSIDE, qs[i], sep) && (i < |qs| - 1 ==> Balanced(qs[i])) {
      if i < |ps| { assert qs[i] == ps[i]; }
    }
  }

  lemma SplitAtOther(init: seq<string>, last: string, front: string, c: char, sep: char)
    requires IsSplit(init + [last], front, sep) && !Separates(Scan(OUTSIDE, last), c, sep)
    ensures IsSplit(init + [last + [c]], front + [c], sep)
  {
    var ps, qs := init + [last], init + [last + [c]];
    JoinSnoc(init, last, [c], sep);
    CutFreeSnoc(OUTSIDE, last, c, sep);
    forall i | 0 <= i < |qs| ensures CutFree(OUTSIDE, qs[i], sep) && (i < |qs| - 1 ==> Balanced(qs[i])) {
      if i < |init| { assert qs[i] == ps[i]; } else { assert ps[i] == last; }
    }
  }

  /** How the last piece, or the list of pieces, grows by one character. */
  lemma PiecesStep(init: seq<string>, last: string, front: string, c: char, sep: char)
    requires Pieces(front, sep) == init + [last]
    ensures Pieces(front + [c], sep) ==
      if Separates(Scan(OUTSIDE, front), c, sep) then init + [last, []] else init + [last + [c]]
  {
    PiecesSnoc(front, c, sep);
    assert (init + [last])[..|init|] == init;
    assert init + [last] + [[]] == init + [last, []];
  }

  lemma ExtendSplit(init: seq<string>, last: string, front: string, c: char, sep: char)
    requires Pieces(front, sep) == init + [last] && IsSplit(init + [last], front, sep)
    requires Scan(OUTSIDE, last) == Scan(OUTSIDE, front)
    ensures var ps := Pieces(front + [c], sep);
      IsSplit(ps, front + [c], sep) && Scan(OUTSIDE, ps[|ps| - 1]) == Scan(OUTSIDE, front + [c])
  {
    PiecesStep(init, last, front, c, sep);
    ScanSnoc(OUTSIDE, front, c);
    if Separates(Scan(OUTSIDE, front), c, sep) {
      SplitAtCut(init, last, front, sep);
    } else {
      SplitAtOther(init, last, front, c, sep);
      ScanSnoc(OUTSIDE, last, c);
    }
  }

  lemma PiecesOfHeadAlone(p: string, sep: char)
    requires Balanced(p) && CutFree(OUTSIDE, p, sep) && sep != QUOTE && sep != BACKSLASH
    ensures Pieces(p + [sep], sep) == [p] + Pieces([], sep)
    ensures Scan(OUTSIDE, p + [sep]) == OUTSIDE
  {
    PiecesOfCutFree(p, sep);
    PiecesSnoc(p, sep, sep);
  }

  /** A balanced, cut-free text before a separator is a piece of its own, whatever follows. */
  lemma {:induction false} PiecesOfHead(head: string, p: string, rest: string, sep: char)
    requires Pieces(head, sep) == [p] + Pieces([], sep) && Scan(OUTSIDE, head) == OUTSIDE
    ensures Pieces(head + rest, sep) == [p] + Pieces(rest, sep)
    ensures Scan(OUTSIDE, head + rest) == Scan(OUTSIDE, rest)
    decreases |rest|
  {
    if rest == [] {
      assert head + rest == head;
    } else {
      var front, c := rest[..|rest| - 1], rest[|rest| - 1];
      PiecesOfHead(head, p, front, sep);
      PiecesOfHeadStep(p, head + front, front, c, sep);
      assert rest == front + [c];
      assert head + rest == (head + front) + [c];
    }
  }

  lemma PiecesOfHeadStep(p: string, whole: string, front: string, c: char, sep: char)
    requires Pieces(whole, sep) == [p] + Pieces(front, sep) && Scan(OUTSIDE, whole) == Scan(OUTSIDE, front)
    ensures Pieces(whole + [c], sep) == [p] + Pieces(front + [c], sep)
    ensures Scan(OUTSIDE, whole + [c]) == Scan(OUTSIDE, front + [c])
  {
    PiecesSnoc(whole, c, sep);
    PiecesSnoc(front, c, sep);
    PrependPiece(p, Pieces(front, sep), c);
  }

  lemma PrependPiece(p: string, ps: seq<string>, c: char)
    requires |ps| >= 1
    ensures var qs := [p] + ps;
      qs[..|qs| - 1] + [qs[|qs| - 1] + [c]] == [p] + (ps[..|ps| - 1] + [ps[|ps| - 1] + [c]])
    ensures [p] + ps + [[]] == [p] + (ps + [[]])
  {
  }

  lemma {:induction false} PiecesOfCutFree(p: string, sep: char)
    requires CutFree(OUTSIDE, p, sep)
    ensures Pieces(p, sep) == [p]
  {
    if p != [] {
      var front, c := p[..|p| - 1], p[|p| - 1];
      PiecesOfCutFree(front, sep);
      assert p == front + [c];
      PiecesSnoc(front, c, sep);
    }
  }

  /** There is one way to cut a text, and the splitter finds it. */
  lemma {:induction false} SplitIsLossless(ps: seq<string>, s: string, sep: char)
    requires sep != QUOTE && sep != BACKSLASH
    ensures IsSplit(ps, s, sep) <==> ps == Pieces(s, sep)
    decreases |ps|
  {
    PiecesAreSplit(s, sep);
    if IsSplit(ps, s, sep) {
      if |ps| == 1 {
        PiecesOfCutFree(s, sep);
      } else {
        var rest := ps[1..];
        SplitIsLossless(rest, Join(rest, sep), sep);
        PiecesOfHeadAlone(ps[0], sep);
        PiecesOfHead(ps[0] + [sep], ps[0], Join(rest, sep), sep);
      }
    }
  }

  /** Trimming a balanced, cut-free text leaves it so. */
  lemma TrimKeepsCutFree(s: string, sep: char)
    requires Balanced(s) && CutFree(OUTSIDE, s, sep)
    ensures Balanced(TrimSpace(s)) && CutFree(OUTSIDE, TrimSpace(s), sep)
  {
    TrimKeepsBalance(s);
    var left, right := TrimParts(s, SPACE);
    CutFreeConcat(OUTSIDE, left + TrimSpace(s), right, sep);
    CutFreeConcat(OUTSIDE, left, TrimSpace(s), sep);
    ScanBlanks(OUTSIDE, left);
  }

  lemma SplitOfPlain(s: string, sep: char)
    requires Balanced(s) && CutFree(OUTSIDE, s, sep) && Trimmed(s, SPACE)
    ensures SplitOutside(s, sep) == Ok([s])
  {
    PiecesOfCutFree(s, sep);
    TrimOfTrimmed(s, SPACE);
    assert TrimAll([s]) == [s];
  }

  /** Every returned piece is a balanced, trimmed text; cutting it again returns just that piece. */
  lemma SplitIsIdempotent(s: string, sep: char, pieces: seq<string>, i: nat)
    requires SplitOutside(s, sep) == Ok(pieces) && i < |pieces|
    ensures |pieces| == UnquotedSeparators(s, sep) + 1
    ensures Balanced(pieces[i]) && Trimmed(pieces[i], SPACE)
    ensures SplitOutside(pieces[i], sep) == Ok([pieces[i]])
  {
    PiecesAreSplit(s, sep);
    var raw := Pieces(s, sep)[i];
    assert Balanced(raw);
    TrimKeepsCutFree(raw, sep);
    var _, _ := TrimParts(raw, SPACE);
    SplitOfPlain(pieces[i], sep);
  }

  // ---------- Inner stages cannot fail late ----------

  /** Whenever a scan ends inside quotes, its open escape is the unescaper's: both count the final backslashes. */
  lemma {:induction false} EscapesAgree(inQuotes: bool, s: string)
    ensures var st := Scan(QuoteState(inQuotes, false), s);
      st.inQuotes ==> st.escaped == UnescapeScan(s).1
  {
    if s != [] {
      EscapesAgree(inQuotes, s[..|s| - 1]);
      EscapeOnlyInQuotes(QuoteState(inQuotes, false), s[..|s| - 1]);
    }
  }

  /** A quoted text that ends outside quotes has no open escape before its last quote. */
  lemma QuotedTextUnescapes(st: QuoteState, inner: string)
    requires !st.escaped && Scan(st, [QUOTE] + inner + [QUOTE]) == OUTSIDE
    ensures Unescape(inner).Ok?
  {
    var st' := QuoteState(!st.inQuotes, false);
    ScanSnoc(st, [], QUOTE);
    ScanConcat(st, [QUOTE], inner);
    ScanSnoc(st, [QUOTE] + inner, QUOTE);
    EscapeOnlyInQuotes(st', inner);
    assert Scan(st', inner) == INSIDE;
    EscapesAgree(st'.inQuotes, inner);
  }

  lemma NoEscapeBeforeValue(k: string, blanks: string)
    requires AllIn(blanks, SPACE)
    ensures !Scan(OUTSIDE, k + ['='] + blanks).escaped
  {
    ScanConcat(OUTSIDE, k + ['='], blanks);
    ScanSnoc(OUTSIDE, k, '=');
    ScanBlanks(Scan(OUTSIDE, k + ['=']), blanks);
  }

  lemma QuotedValueUnescapes(k: string, left: string, inner: string, right: string)
    requires AllIn(left, SPACE) && AllIn(right, SPACE)
    requires Balanced((k + ['='] + left) + ([QUOTE] + inner + [QUOTE]) + right)
    ensures Unescape(inner).Ok?
  {
    var head, value := k + ['='] + left, [QUOTE] + inner + [QUOTE];
    WithoutTrailingBlanks(head + value, right);
    ScanConcat(OUTSIDE, head, value);
    NoEscapeBeforeValue(k, left);
    QuotedTextUnescapes(Scan(OUTSIDE, head), inner);
  }

  lemma Requote(value: string)
    requires |value| >= 2 && value[0] == QUOTE && value[|value| - 1] == QUOTE
    ensures value == [QUOTE] + value[1..|value| - 1] + [QUOTE]
  {
  }

  /** The value of any `=` in a balanced part can be unquoted, even when that `=` lies inside quotes. */
  lemma ValueUnquotes(part: string, k: string, v: string)
    requires Balanced(part) && part == k + ['='] + v
    ensures Unquote(TrimSpace(v)).Ok?
  {
    var left, right := TrimParts(v, SPACE);
    var value := TrimSpace(v);
    if |value| >= 2 && value[0] == QUOTE && value[|value| - 1] == QUOTE {
      Requote(value);
      assert part == (k + ['='] + left) + value + right;
      QuotedValueUnescapes(k, left, value[1..|value| - 1], right);
    }
  }

  /** A part is well formed: blank, or with a named field before its first `=`. */
  predicate WellFormedPart(part: string) {
    part == [] || ('=' in part && TrimSpace(Cut(part, '=').0) != [])
  }

  lemma PartCannotFailLate(part: string)
    requires Balanced(part) && Trimmed(part, SPACE)
    ensures ParsePart(part).Ok? <==> WellFormedPart(part)
    ensures ParsePart(part).Err? ==> ParsePart(part).error == MissingEquals(part) || ParsePart(part).error == EmptyFieldName
  {
    TrimOfTrimmed(part, SPACE);
    var (k, v, found) := Cut(part, '=');
    if found {
      ValueUnquotes(part, k, v);
    }
  }

  predicate WellFormedParts(parts: seq<string>) {
    forall i :: 0 <= i < |parts| ==> WellFormedPart(parts[i])
  }

  /** Parsing succeeds exactly on well-formed parts, and reports nothing but a missing `=` or an empty name. */
  predicate FailsEarlyOnly(parts: seq<string>) {
    match ParseParts(parts)
    case Ok(_) => WellFormedParts(parts)
    case Err(e) => !WellFormedParts(parts) && (e.MissingEquals? || e.EmptyFieldName?)
  }

  lemma OneMorePart(front: seq<string>, part: string)
    requires FailsEarlyOnly(front) && Balanced(part) && Trimmed(part, SPACE)
    ensures FailsEarlyOnly(front + [part])
  {
    PartCannotFailLate(part);
    var parts := front + [part];
    assert parts[..|parts| - 1] == front && parts[|parts| - 1] == part;
    assert WellFormedParts(parts) <==> WellFormedParts(front) && WellFormedPart(part) by {
      assert forall i :: 0 <= i < |front| ==> parts[i] == front[i];
    }
  }

  lemma {:induction false} PartsCannotFailLate(parts: seq<string>)
    requires forall i :: 0 <= i < |parts| ==> Balanced(parts[i]) && Trimmed(parts[i], SPACE)
    ensures FailsEarlyOnly(parts)
  {
    if parts != [] {
      var front, part := parts[..|parts| - 1], parts[|parts| - 1];
      PartsCannotFailLate(front);
      OneMorePart(front, part);
      assert parts == front + [part];
    }
  }

  /**
   * Once a header is split into entries, an entry is parsed unless one of its parts has no `=` or no
   * field name: quotes and escapes are never reported again.
   */
  lemma NoLateFailure(header: string, entries: seq<string>, i: nat)
    requires SplitOutside(header, ',') == Ok(entries) && i < |entries|
    ensures SplitOutside(entries[i], ';').Ok?
    ensures ParseFields(entries[i]).Ok? <==> WellFormedParts(SplitOutside(entries[i], ';').value)
    ensures ParseFields(entries[i]).Err? ==>
      ParseFields(entries[i]).error.MissingEquals? || ParseFields(entries[i]).error.EmptyFieldName?
  {
    SplitIsIdempotent(header, ',', entries, i);
    var parts := SplitOutside(entries[i], ';').value;
    forall j | 0 <= j < |parts| ensures Balanced(parts[j]) && Trimmed(parts[j], SPACE) {
      SplitIsIdempotent(entries[i], ';', parts, j);
    }
    PartsCannotFailLate(parts);
  }

  // ---------- Writing fields ----------

  function Escape(v: string): string {
    if v == [] then []
    else
      var c := v[|v| - 1];
      Escape(v[..|v| - 1]) + (if c == QUOTE || c == BACKSLASH then [BACKSLASH, c] else [c])
  }

  /** How a field is written: the blanks around its key and value, and whether the value is quoted. */
  datatype Style = Style(before: string, beforeEquals: string, afterEquals: string, after: string, quoted: bool)

  function WriteValue(v: string, quoted: bool): string {
    if quoted then [QUOTE] + Escape(v) + [QUOTE] else v
  }

  function WriteField(k: string, v: string, st: Style): string {
    st.before + (k + st.beforeEquals + ['='] + st.afterEquals + WriteValue(v, st.quoted)) + st.after
  }

  /** The fields of a map in the given order of its keys, each in its own style. */
  function WriteFields(fields: map<string, string>, order: seq<string>, styles: seq<Style>): (ps: seq<string>)
    requires |styles| == |order| && forall i :: 0 <= i < |order| ==> order[i] in fields
    ensures |ps| == |order|
    ensures forall i :: 0 <= i < |ps| ==> ps[i] == WriteField(order[i], fields[order[i]], styles[i])
  {
    seq(|order|, i requires 0 <= i < |order| => WriteField(order[i], fields[order[i]], styles[i]))
  }

  function Write(fields: map<string, string>, order: seq<string>, styles: seq<Style>): string
    requires |styles| == |order| && forall i :: 0 <= i < |order| ==> order[i] in fields
  {
    Join(WriteFields(fields, order, styles), ';')
  }

  /** A key the format can carry unquoted. */
  predicate PlainKey(k: string) {
    k != [] && Trimmed(k, SPACE) && forall c :: c in k ==> c !in {QUOTE, BACKSLASH, ',', ';', '='}
  }

  /** A value the format can carry unquoted. */
  predicate PlainValue(v: string) {
    Trimmed(v, SPACE) && forall c :: c in v ==> c !in {QUOTE, BACKSLASH, ',', ';'}
  }

  predicate Blank(s: string) { AllIn(s, SPACE) }

  predicate BlankStyle(st: Style) { Blank(st.before) && Blank(st.beforeEquals) && Blank(st.afterEquals) && Blank(st.after) }

  predicate Fits(v: string, st: Style) { BlankStyle(st) && (st.quoted || PlainValue(v)) }

  /** Every field can be written this way. */
  predicate AllFit(fields: map<string, string>, order: seq<string>, styles: seq<Style>) {
    |styles| == |order| &&
    forall i :: 0 <= i < |order| ==> order[i] in fields && PlainKey(order[i]) && Fits(fields[order[i]], styles[i])
  }

  lemma UnescapeSnoc(s: string, c: char)
    ensures var (out, escaped) := UnescapeScan(s);
      UnescapeScan(s + [c]) == if !escaped && c == BACKSLASH then (out, true) else (out + [c], false)
  {
    assert (s + [c])[..|s|] == s;
  }

  lemma ReadSnoc(s: string, c: char, sep: char)
    ensures Scan(INSIDE, s + [c]) == Step(Scan(INSIDE, s), c)
    ensures CutFree(INSIDE, s + [c], sep) <==> CutFree(INSIDE, s, sep) && !Separates(Scan(INSIDE, s), c, sep)
    ensures var (out, escaped) := UnescapeScan(s);
      UnescapeScan(s + [c]) == if !escaped && c == BACKSLASH then (out, true) else (out + [c], false)
  {
    ScanSnoc(INSIDE, s, c);
    CutFreeSnoc(INSIDE, s, c, sep);
    UnescapeSnoc(s, c);
  }

  /** Read inside quotes, the text stays inside, hides every separator and unescapes to the original. */
  predicate Hidden(e: string, v: string, sep: char) {
    Scan(INSIDE, e) == INSIDE && CutFree(INSIDE, e, sep) && UnescapeScan(e) == (v, false)
  }

  lemma HidePlain(e: string, v: string, c: char, sep: char)
    requires Hidden(e, v, sep) && c != QUOTE && c != BACKSLASH
    ensures Hidden(e + [c], v + [c], sep)
  {
    ReadSnoc(e, c, sep);
  }

  lemma HideSpecial(e: string, v: string, c: char, sep: char)
    requires Hidden(e, v, sep) && (c == QUOTE || c == BACKSLASH)
    ensures Hidden(e + [BACKSLASH, c], v + [c], sep)
  {
    ReadSnoc(e, BACKSLASH, sep);
    ReadSnoc(e + [BACKSLASH], c, sep);
    assert e + [BACKSLASH, c] == e + [BACKSLASH] + [c];
  }

  lemma {:induction false} EscapeStaysInside(v: string, sep: char)
    ensures Hidden(Escape(v), v, sep)
  {
    if v != [] {
      var front, c := v[..|v| - 1], v[|v| - 1];
      EscapeStaysInside(front, sep);
      if c == QUOTE || c == BACKSLASH {
        HideSpecial(Escape(front), front, c, sep);
      } else {
        HidePlain(Escape(front), front, c, sep);
      }
      assert v == front + [c];
    }
  }

  lemma {:induction false} PlainScan(k: string, sep: char)
    requires forall i :: 0 <= i < |k| ==> k[i] != QUOTE && k[i] != BACKSLASH && k[i] != sep
    ensures Balanced(k) && CutFree(OUTSIDE, k, sep)
  {
    if k != [] {
      PlainScan(k[..|k| - 1], sep);
    }
  }

  lemma QuotedScan(v: string, sep: char)
    requires sep != QUOTE
    ensures var q := [QUOTE] + Escape(v) + [QUOTE]; Balanced(q) && CutFree(OUTSIDE, q, sep)
  {
    EscapeStaysInside(v, sep);
    ScanSnoc(OUTSIDE, [], QUOTE);
    CutFreeSnoc(OUTSIDE, [], QUOTE, sep);
    Chain(OUTSIDE, [QUOTE], Escape(v), sep);
    ScanSnoc(OUTSIDE, [QUOTE] + Escape(v), QUOTE);
    CutFreeSnoc(OUTSIDE, [QUOTE] + Escape(v), QUOTE, sep);
  }

  /** The text is nothing to the splitter. */
  predicate Inert(s: string) {
    forall i :: 0 <= i < |s| ==> s[i] != QUOTE && s[i] != BACKSLASH && s[i] != ',' && s[i] != ';'
  }

  lemma BlankIsInert(s: string)
    requires Blank(s)
    ensures Inert(s) && '=' !in s
  {
    assert forall i :: 0 <= i < |s| ==> s[i] in SPACE;
  }

  function FieldHead(k: string, st: Style): string {
    st.before + k + st.beforeEquals + ['='] + st.afterEquals
  }

  lemma FieldHeadIsInert(k: string, st: Style)
    requires PlainKey(k) && BlankStyle(st)
    ensures Inert(FieldHead(k, st)) && Inert(st.after)
  {
    BlankIsInert(st.before);
    BlankIsInert(st.beforeEquals);
    BlankIsInert(st.afterEquals);
    BlankIsInert(st.after);
    assert forall i :: 0 <= i < |k| ==> k[i] in k;
  }

  lemma WrittenValueScan(v: string, st: Style, sep: char)
    requires Fits(v, st) && (sep == ',' || sep == ';')
    ensures Balanced(WriteValue(v, st.quoted)) && CutFree(OUTSIDE, WriteValue(v, st.quoted), sep)
  {
    if st.quoted {
      QuotedScan(v, sep);
    } else {
      assert forall i :: 0 <= i < |v| ==> v[i] in v;
      PlainScan(v, sep);
    }
  }

  lemma BetweenInert(a: string, b: string, c: string, sep: char)
    requires Inert(a) && Inert(c) && Balanced(b) && CutFree(OUTSIDE, b, sep) && (sep == ',' || sep == ';')
    ensures Balanced(a + b + c) && CutFree(OUTSIDE, a + b + c, sep)
  {
    PlainScan(a, sep);
    PlainScan(c, sep);
    Chain(OUTSIDE, a, b, sep);
    Chain(OUTSIDE, a + b, c, sep);
  }

  lemma WrittenFieldScan(k: string, v: string, st: Style, sep: char)
    requires PlainKey(k) && Fits(v, st) && (sep == ',' || sep == ';')
    ensures Balanced(WriteField(k, v, st)) && CutFree(OUTSIDE, WriteField(k, v, st), sep)
  {
    FieldHeadIsInert(k, st);
    WrittenValueScan(v, st, sep);
    BetweenInert(FieldHead(k, st), WriteValue(v, st.quoted), st.after, sep);
    assert WriteField(k, v, st) == FieldHead(k, st) + WriteValue(v, st.quoted) + st.after;
  }

  lemma {:induction false} CutAtFirst(k: string, rest: string, c: char)
    requires c !in k
    ensures Cut(k + [c] + rest, c) == (k, rest, true)
    decreases |k|
  {
    var s := k + [c] + rest;
    if k == [] {
      assert s[1..] == rest;
    } else {
      var tail := k[1..];
      assert c !in tail && k == [k[0]] + tail;
      assert s[1..] == tail + [c] + rest && s[0] == k[0];
      CutAtFirst(tail, rest, c);
    }
  }

  /** What is left of a field after trimming: up to its value, or up to its `=` when the value is empty. */
  lemma PaddedCore(k: string, value: string, st: Style)
    requires PlainKey(k) && Trimmed(value, SPACE) && BlankStyle(st)
    ensures TrimSpace(st.before + (k + st.beforeEquals + ['='] + st.afterEquals + value) + st.after) ==
      (k + st.beforeEquals) + ['='] + (if value == [] then [] else st.afterEquals + value)
  {
    var raw := st.before + (k + st.beforeEquals + ['='] + st.afterEquals + value) + st.after;
    var core := (k + st.beforeEquals) + ['='] + (if value == [] then [] else st.afterEquals + value);
    var right := if value == [] then st.afterEquals + st.after else st.after;
    assert raw == st.before + core + right;
    assert core[0] == k[0];
    assert core[|core| - 1] == if value == [] then '=' else value[|value| - 1];
    TrimPadded(st.before, core, right, SPACE);
  }

  lemma TrimAround(left: string, core: string)
    requires Blank(left) && Trimmed(core, SPACE)
    ensures TrimSpace(core + left) == core && TrimSpace(left + core) == core
  {
    TrimPadded([], core, left, SPACE);
    TrimPadded(left, core, [], SPACE);
    assert [] + core + left == core + left && left + core + [] == left + core;
  }

  /** A padded key and value around an `=` are found, and the value is unquoted. */
  lemma PaddedFieldParses(k: string, value: string, st: Style)
    requires PlainKey(k) && Trimmed(value, SPACE) && BlankStyle(st) && Unquote(value).Ok?
    ensures ParsePart(st.before + (k + st.beforeEquals + ['='] + st.afterEquals + value) + st.after) ==
      Ok(Some((k, Unquote(value).value)))
  {
    PaddedCore(k, value, st);
    BlankIsInert(st.beforeEquals);
    CutAtFirst(k + st.beforeEquals, if value == [] then [] else st.afterEquals + value, '=');
    TrimAround(st.beforeEquals, k);
    TrimAround(st.afterEquals, value);
    TrimOfTrimmed([], SPACE);
  }

  /** A value that does not begin and end with a quote is taken as it stands. */
  lemma BareFieldParses(k: string, v: string, st: Style)
    requires PlainKey(k) && BlankStyle(st) && Trimmed(v, SPACE)
    requires |v| < 2 || v[0] != QUOTE || v[|v| - 1] != QUOTE
    ensures ParsePart(st.before + (k + st.beforeEquals + ['='] + st.afterEquals + v) + st.after) == Ok(Some((k, v)))
  {
    PaddedFieldParses(k, v, st);
  }

  lemma WrittenFieldParses(k: string, v: string, st: Style)
    requires PlainKey(k) && Fits(v, st)
    ensures ParsePart(WriteField(k, v, st)) == Ok(Some((k, v)))
  {
    if st.quoted {
      QuotedValueUnquotes(v);
      PaddedFieldParses(k, WriteValue(v, true), st);
    } else {
      assert |v| > 0 ==> v[0] in v;
      BareFieldParses(k, v, st);
    }
  }

  lemma ParseOfTrimmed(part: string)
    ensures ParsePart(TrimSpace(part)) == ParsePart(part)
  {
    var _, _ := TrimParts(part, SPACE);
    TrimOfTrimmed(TrimSpace(part), SPACE);
  }

  lemma QuotedValueUnquotes(v: string)
    ensures Unquote([QUOTE] + Escape(v) + [QUOTE]) == Ok(v)
  {
    var value := [QUOTE] + Escape(v) + [QUOTE];
    assert value[1..|value| - 1] == Escape(v);
    EscapeStaysInside(v, ';');
  }

  /** The part of a map under the listed keys. */
  function Restrict(fields: map<string, string>, keys: seq<string>): map<string, string> {
    map k | k in fields && k in keys :: fields[k]
  }

  lemma RestrictSnoc(fields: map<string, string>, keys: seq<string>, k: string)
    requires k in fields
    ensures Restrict(fields, keys)[k := fields[k]] == Restrict(fields, keys + [k])
  {
  }

  lemma ParsePartsSnoc(parts: seq<string>, part: string, fields: map<string, string>, k: string, v: string)
    requires ParseParts(parts) == Ok(fields) && ParsePart(part) == Ok(Some((k, v)))
    ensures ParseParts(parts + [part]) == Ok(fields[k := v])
  {
    assert (parts + [part])[..|parts|] == parts;
  }

  lemma WriteFieldsSnoc(fields: map<string, string>, front: seq<string>, styles: seq<Style>, k: string, st: Style)
    requires AllFit(fields, front, styles) && k in fields && PlainKey(k) && Fits(fields[k], st)
    ensures AllFit(fields, front + [k], styles + [st])
    ensures WriteFields(fields, front + [k], styles + [st]) ==
      WriteFields(fields, front, styles) + [WriteField(k, fields[k], st)]
  {
  }

  lemma WrittenPartsStep(fields: map<string, string>, front: seq<string>, parts: seq<string>, k: string, st: Style)
    requires k in fields && PlainKey(k) && Fits(fields[k], st)
    requires ParseParts(TrimAll(parts)) == Ok(Restrict(fields, front))
    ensures ParseParts(TrimAll(parts + [WriteField(k, fields[k], st)])) == Ok(Restrict(fields, front + [k]))
  {
    var part := WriteField(k, fields[k], st);
    WrittenFieldParses(k, fields[k], st);
    ParseOfTrimmed(part);
    RestrictSnoc(fields, front, k);
    TrimAllAppend(parts, part);
    ParsePartsSnoc(TrimAll(parts), TrimSpace(part), Restrict(fields, front), k, fields[k]);
  }

  lemma {:induction false} WrittenPartsParse(fields: map<string, string>, order: seq<string>, styles: seq<Style>)
    requires AllFit(fields, order, styles)
    ensures ParseParts(TrimAll(WriteFields(fields, order, styles))) == Ok(Restrict(fields, order))
    decreases |order|
  {
    if order == [] {
      assert TrimAll(WriteFields(fields, order, styles)) == [];
      assert Restrict(fields, order) == map[];
    } else {
      var front, k := order[..|order| - 1], order[|order| - 1];
      var fronts, st := styles[..|order| - 1], styles[|order| - 1];
      assert order == front + [k] && styles == fronts + [st];
      WrittenPartsParse(fields, front, fronts);
      WriteFieldsSnoc(fields, front, fronts, k, st);
      WrittenPartsStep(fields, front, WriteFields(fields, front, fronts), k, st);
    }
  }

  lemma {:induction false} JoinedFieldsScan(ps: seq<string>)
    requires forall i :: 0 <= i < |ps| ==> Balanced(ps[i]) && CutFree(OUTSIDE, ps[i], ',')
    ensures Balanced(Join(ps, ';')) && CutFree(OUTSIDE, Join(ps, ';'), ',')
  {
    if |ps| > 1 {
      var rest := Join(ps[1..], ';');
      JoinedFieldsScan(ps[1..]);
      var head := ps[0] + [';'];
      assert Join(ps, ';') == head + rest;
      ScanSnoc(OUTSIDE, ps[0], ';');
      CutFreeSnoc(OUTSIDE, ps[0], ';', ',');
      Chain(OUTSIDE, head, rest, ',');
    }
  }

  // ---------- What is refused ----------

  /** An open quote is reported as such, and an escape left open in it as that. */
  lemma OpenQuoteIsReported(before: string, v: string, sep: char)
    requires Balanced(before)
    ensures SplitOutside(before + [QUOTE] + Escape(v), sep) == Err(UnterminatedQuote)
    ensures SplitOutside(before + [QUOTE] + Escape(v) + [BACKSLASH], sep) == Err(DanglingEscape)
  {
    var open := before + [QUOTE];
    ScanSnoc(OUTSIDE, before, QUOTE);
    EscapeStaysInside(v, sep);
    ScanConcat(OUTSIDE, open, Escape(v));
    ScanSnoc(OUTSIDE, open + Escape(v), BACKSLASH);
  }

  lemma OpenTailFails(head: string, v: string)
    requires Balanced(head)
    ensures ParseFields(head + ([QUOTE] + Escape(v))) == Err(SplitFailure(head + ([QUOTE] + Escape(v)), UnterminatedQuote))
  {
    OpenQuoteIsReported(head, v, ';');
    assert head + ([QUOTE] + Escape(v)) == head + [QUOTE] + Escape(v);
  }

  lemma InertKey(k: string)
    requires PlainKey(k) || Blank(k)
    ensures Balanced(k + ['=']) && '=' !in k
  {
    var head := k + ['='];
    if Blank(k) {
      BlankIsInert(k);
    } else {
      assert forall i :: 0 <= i < |k| ==> k[i] in k;
    }
    PlainScan(head, ';');
  }

  /** A field whose value opens a quote and does not close it is named in the error. */
  lemma OpenValueIsReported(k: string, v: string)
    requires PlainKey(k)
    ensures ParseFields(k + ['='] + ([QUOTE] + Escape(v))) == Err(InvalidValue(k, UnterminatedQuote))
  {
    InertKey(k);
    OpenTailFails(k + ['='], v);
    CutAtFirst(k, [QUOTE] + Escape(v), '=');
    TrimOfTrimmed(k, SPACE);
  }

  /** An open quote with no key before it is reported of the entry. */
  lemma {:induction false} OpenEntryIsReported(v: string)
    requires '=' !in v
    ensures ParseFields([QUOTE] + Escape(v)) == Err(InvalidEntry(UnterminatedQuote))
  {
    OpenTailFails([], v);
    assert [] + ([QUOTE] + Escape(v)) == [QUOTE] + Escape(v);
    EscapeAddsNoEquals(v);
    assert '=' !in [QUOTE] + Escape(v);
  }

  /** So is one with nothing but blanks for a key. */
  lemma OpenNamelessIsReported(blanks: string, v: string)
    requires Blank(blanks)
    ensures ParseFields(blanks + ['='] + ([QUOTE] + Escape(v))) == Err(InvalidEntry(UnterminatedQuote))
  {
    InertKey(blanks);
    OpenTailFails(blanks + ['='], v);
    CutAtFirst(blanks, [QUOTE] + Escape(v), '=');
    TrimAround(blanks, []);
    assert blanks + [] == blanks;
  }

  lemma {:induction false} EscapeAddsNoEquals(v: string)
    requires '=' !in v
    ensures '=' !in Escape(v)
  {
    if v != [] { EscapeAddsNoEquals(v[..|v| - 1]); }
  }

  /** A part without an `=` is refused, and so is one with nothing but blanks before it. */
  lemma NamelessIsReported(part: string, blanks: string, rest: string)
    requires Trimmed(part, SPACE) && part != [] && '=' !in part && Blank(blanks)
    requires Trimmed(rest, SPACE)
    ensures ParsePart(part) == Err(MissingEquals(part))
    ensures ParsePart(blanks + (['='] + rest)) == Err(EmptyFieldName)
  {
    TrimOfTrimmed(part, SPACE);
    var core := ['='] + rest;
    assert core[|core| - 1] == if rest == [] then '=' else rest[|rest| - 1];
    TrimAround(blanks, core);
    CutAtFirst([], rest, '=');
    assert [] + ['='] + rest == core;
    TrimOfTrimmed([], SPACE);
  }

  // ---------- Blanks around an entry ----------

  lemma {:induction false} JoinPadFirst(left: string, p: string, rest: seq<string>, sep: char)
    ensures Join([left + p] + rest, sep) == left + Join([p] + rest, sep)
  {
    assert ([left + p] + rest)[1..] == rest && ([p] + rest)[1..] == rest;
  }

  /** Blanks before a text go to its first piece. */
  lemma PiecesAfterBlanks(left: string, t: string, sep: char)
    requires Blank(left) && sep == ';'
    ensures var ps := Pieces(t, sep); Pieces(left + t, sep) == [left + ps[0]] + ps[1..]
  {
    var ps := Pieces(t, sep);
    var qs := [left + ps[0]] + ps[1..];
    PiecesAreSplit(t, sep);
    assert ps == [ps[0]] + ps[1..];
    JoinPadFirst(left, ps[0], ps[1..], sep);
    BlankIsInert(left);
    PlainScan(left, sep);
    Chain(OUTSIDE, left, ps[0], sep);
    forall i | 0 <= i < |qs| ensures CutFree(OUTSIDE, qs[i], sep) && (i < |qs| - 1 ==> Balanced(qs[i])) {
      if i > 0 { assert qs[i] == ps[i]; }
    }
    SplitIsLossless(qs, left + t, sep);
  }

  /** Blanks after a balanced text go to its last piece. */
  lemma PiecesBeforeBlanks(t: string, right: string, sep: char)
    requires Blank(right) && sep == ';' && Balanced(t)
    ensures var ps := Pieces(t, sep); Pieces(t + right, sep) == ps[..|ps| - 1] + [ps[|ps| - 1] + right]
  {
    var ps := Pieces(t, sep);
    var init, last := ps[..|ps| - 1], ps[|ps| - 1];
    var qs := init + [last + right];
    PiecesAreSplit(t, sep);
    assert ps == init + [last];
    JoinSnoc(init, last, right, sep);
    BlankIsInert(right);
    PlainScan(right, sep);
    Chain(OUTSIDE, last, right, sep);
    forall i | 0 <= i < |qs| ensures CutFree(OUTSIDE, qs[i], sep) && (i < |qs| - 1 ==> Balanced(qs[i])) {
      if i < |init| { assert qs[i] == ps[i]; }
    }
    SplitIsLossless(qs, t + right, sep);
  }

  lemma TrimAllPadFirst(left: string, ps: seq<string>)
    requires Blank(left) && |ps| >= 1
    ensures TrimAll([left + ps[0]] + ps[1..]) == TrimAll(ps)
  {
    TrimOfPadded(left, ps[0], [], SPACE);
    assert left + ps[0] + [] == left + ps[0];
  }

  lemma TrimAllPadLast(ps: seq<string>, right: string)
    requires Blank(right) && |ps| >= 1
    ensures TrimAll(ps[..|ps| - 1] + [ps[|ps| - 1] + right]) == TrimAll(ps)
  {
    TrimOfPadded([], ps[|ps| - 1], right, SPACE);
    assert [] + ps[|ps| - 1] + right == ps[|ps| - 1] + right;
  }

  /** Blanks around a balanced entry do not matter. */
  lemma TrimmedEntryParses(entry: string)
    requires Balanced(entry)
    ensures ParseFields(TrimSpace(entry)) == ParseFields(entry)
  {
    var left, right := TrimParts(entry, SPACE);
    var t := TrimSpace(entry);
    TrimKeepsBalance(entry);
    assert entry == left + (t + right);
    PiecesAfterBlanks(left, t + right, ';');
    PiecesBeforeBlanks(t, right, ';');
    TrimAllPadFirst(left, Pieces(t + right, ';'));
    TrimAllPadLast(Pieces(t, ';'), right);
  }

  // ---------- Round trip ----------

  lemma WrittenEntry(fields: map<string, string>, order: seq<string>, styles: seq<Style>)
    requires AllFit(fields, order, styles) && order != []
    ensures var header := Write(fields, order, styles);
      && Balanced(header) && CutFree(OUTSIDE, header, ',')
      && SplitOutside(header, ';') == Ok(TrimAll(WriteFields(fields, order, styles)))
  {
    var ps, header := WriteFields(fields, order, styles), Write(fields, order, styles);
    forall i | 0 <= i < |ps|
      ensures Balanced(ps[i]) && CutFree(OUTSIDE, ps[i], ',') && CutFree(OUTSIDE, ps[i], ';')
    {
      WrittenFieldScan(order[i], fields[order[i]], styles[i], ',');
      WrittenFieldScan(order[i], fields[order[i]], styles[i], ';');
    }
    JoinedFieldsScan(ps);
    SplitIsLossless(ps, header, ';');
  }

  lemma {:induction false} WrittenHeaderSplits(fields: map<string, string>, order: seq<string>, styles: seq<Style>)
    requires AllFit(fields, order, styles) && order != []
    ensures var header := Write(fields, order, styles);
      && SplitOutside(header, ',') == Ok([TrimSpace(header)])
      && ParseFields(TrimSpace(header)) == ParseParts(TrimAll(WriteFields(fields, order, styles)))
  {
    var header := Write(fields, order, styles);
    WrittenEntry(fields, order, styles);
    PiecesOfCutFree(header, ',');
    assert TrimAll([header]) == [TrimSpace(header)];
    TrimmedEntryParses(header);
  }

  lemma WriteNothing()
    ensures SplitOutside([], ',') == Ok([[]]) && ParseFields([]) == Ok(map[])
  {
    SplitOfPlain([], ',');
    SplitOfPlain([], ';');
    var blank: seq<string> := [[]];
    assert blank[..0] == [] && ParsePart([]) == Ok(None);
  }

  lemma RestrictToAll(fields: map<string, string>, order: seq<string>)
    requires forall k :: k in fields <==> k in order
    ensures Restrict(fields, order) == fields
  {
  }

  /**
   * Writing a map and parsing the header gives one entry, and that entry gives back the map: any blanks around
   * keys and values, any value quoted, and plain values, field by field, unquoted.
   */
  lemma {:induction false} RoundTrip(fields: map<string, string>, order: seq<string>, styles: seq<Style>)
    requires forall k :: k in fields <==> k in order
    requires AllFit(fields, order, styles)
    ensures var header := Write(fields, order, styles);
      SplitOutside(header, ',') == Ok([TrimSpace(header)]) && ParseFields(TrimSpace(header)) == Ok(fields)
  {
    if order != [] {
      WrittenHeaderSplits(fields, order, styles);
      WrittenPartsParse(fields, order, styles);
      RestrictToAll(fields, order);
    } else {
      WriteNothing();
      assert fields == map[];
    }
  }
}
