/** What `fmt.Errorf(text)` prints when `text` is an error message used as a format string with
    no operands: Go's `doPrintf` run over `text` with an empty argument list. Every directive then
    lacks its operand, so it is rendered as one of the `%!` diagnostics, and `%%` as `%`. */
module Fmt {
  import Decimal
  import Results

  const PercentBang: string := "%!"
  const NoVerb: string := "%!(NOVERB)"
  const BadWidth: string := "%!(BADWIDTH)"
  const BadPrec: string := "%!(BADPREC)"
  const BadIndex: string := "(BADINDEX)"
  const Missing: string := "(MISSING)"

  /** `parsenum` gives up on numbers above this bound. */
  const TooLarge: nat := 1_000_000

  /** The flag characters the `simpleFormat` loop skips. */
  predicate IsFlag(c: char) {
    c == '#' || c == '0' || c == '+' || c == '-' || c == ' '
  }

  /** The first position at or after `i` that is not a flag. */
  function SkipFlags(s: string, i: nat): (k: nat)
    requires i <= |s|
    ensures i <= k <= |s|
    ensures forall m :: i <= m < k ==> IsFlag(s[m])
    ensures k < |s| ==> !IsFlag(s[k])
    decreases |s| - i
  {
    if i < |s| && IsFlag(s[i]) then SkipFlags(s, i + 1) else i
  }

  /** The result of `parsenum`: the value, whether any digit was read, and where it stopped. */
  datatype Num = Num(value: nat, isNum: bool, next: nat)

  function ParseNumFrom(s: string, i: nat, end: nat, num: nat, isNum: bool): (r: Num)
    requires i <= end <= |s|
    ensures i <= r.next <= end
    ensures r.isNum ==> isNum || (i < end && Decimal.IsDigit(s[i]))
    decreases end - i
  {
    if i < end && Decimal.IsDigit(s[i]) then
      if num > TooLarge then Num(0, false, end)
      else ParseNumFrom(s, i + 1, end, num * 10 + Decimal.DigitValue(s[i]), true)
    else Num(num, isNum, i)
  }

  /** `parsenum(s, start, end)`: the digits from `start`; a number that grows past the bound
      jumps to `end`. */
  function ParseNum(s: string, start: nat, end: nat): (r: Num)
    requires end <= |s|
    ensures start <= end ==> start <= r.next <= end
    ensures start > end ==> r.next == end
    ensures r.isNum ==> start < end && Decimal.IsDigit(s[start])
  {
    if start >= end then Num(0, false, end) else ParseNumFrom(s, start, end, 0, false)
  }

  /** The first `]` at or after `i`, if any. */
  function CloseBracket(s: string, i: nat): (r: Results.Option<nat>)
    requires i <= |s|
    ensures r.Some? ==> i <= r.value < |s| && s[r.value] == ']'
    ensures r.Some? ==> forall m :: i <= m < r.value ==> s[m] != ']'
    ensures r.None? ==> forall m :: i <= m < |s| ==> s[m] != ']'
    decreases |s| - i
  {
    if i == |s| then Results.None
    else if s[i] == ']' then Results.Some(i)
    else CloseBracket(s, i + 1)
  }

  /** The result of `argNumber` with no operands: whether a well-formed `[n]` was read, where
      parsing continues, and whether a `[` was seen at all, which spoils the argument number. */
  datatype Index = Index(found: bool, next: nat, bracket: bool)

  /** `argNumber` with an empty argument list: no index can be in range, so any `[` marks the
      directive as a bad index; a well-formed `[n]` is skipped whole, anything else only its `[`. */
  function ArgNumber(s: string, i: nat): (r: Index)
    requires i <= |s|
    ensures i <= r.next <= |s|
    ensures r.bracket <==> i < |s| && s[i] == '['
    ensures !r.bracket ==> r == Index(false, i, false)
    ensures r.found ==> r.bracket
  {
    if i >= |s| || s[i] != '[' then Index(false, i, false)
    else if |s| - i < 3 then Index(false, i + 1, true)
    else match CloseBracket(s, i + 1)
      case None => Index(false, i + 1, true)
      case Some(j) =>
        var n := ParseNum(s, i + 1, j);
        Index(n.isNum && n.next == j, j + 1, true)
  }

  /** Where parsing stands after the width or the precision: the next position, whether an
      index was just read, whether a `*` found no operand, and whether any `[` was seen. */
  datatype Stage = Stage(next: nat, afterIndex: bool, badStar: bool, bracket: bool)

  /** The width after an optional index `a`: a `*` cannot take its operand; digits are skipped. */
  function Width(s: string, a: Index): (w: Stage)
    requires a.next <= |s|
    ensures a.next <= w.next <= |s|
    ensures w.bracket == a.bracket
  {
    if a.next < |s| && s[a.next] == '*' then Stage(a.next + 1, false, true, a.bracket)
    else Stage(ParseNum(s, a.next, |s|).next, a.found, false, a.bracket)
  }

  /** The precision: a `.` that is not the last character, an optional index, then a `*` or
      digits. A `.` with nothing after it is left to be read as the verb. */
  function Precision(s: string, w: Stage): (p: Stage)
    requires w.next <= |s|
    ensures w.next <= p.next <= |s|
    ensures w.bracket ==> p.bracket
  {
    if w.next + 1 < |s| && s[w.next] == '.' then
      var a := ArgNumber(s, w.next + 1);
      if a.next < |s| && s[a.next] == '*' then Stage(a.next + 1, false, true, w.bracket || a.bracket)
      else Stage(ParseNum(s, a.next, |s|).next, a.found, false, w.bracket || a.bracket)
    else Stage(w.next, w.afterIndex, false, w.bracket)
  }

  /** What one directive prints and where the text resumes; `i` is just past the `%`. */
  datatype Piece = Piece(out: string, next: nat)

  /** One directive of `doPrintf`: flags, an optional index, the width, the precision, another
      optional index unless one was just read, then the verb. With no operands every verb but `%`
      reports its operand missing, or a bad index when a `[` was seen. */
  function Directive(s: string, i: nat): (r: Piece)
    requires i <= |s|
    ensures i <= r.next <= |s|
  {
    var w := Width(s, ArgNumber(s, SkipFlags(s, i)));
    var p := Precision(s, w);
    var a := if p.afterIndex then Index(true, p.next, false) else ArgNumber(s, p.next);
    var prefix := (if w.badStar then BadWidth else "") + (if p.badStar then BadPrec else "");
    if a.next >= |s| then Piece(prefix + NoVerb, |s|)
    else
      var verb := s[a.next];
      var shown :=
        if verb == '%' then "%"
        else if p.bracket || a.bracket then PercentBang + [verb] + BadIndex
        else PercentBang + [verb] + Missing;
      Piece(prefix + shown, a.next + 1)
  }

  /** `doPrintf`: text outside directives is copied as is, and each directive is replaced by what
      it prints. A directive is parsed on the text after its `%`, so positions count from there. */
  function Scan(s: string): (r: string)
    decreases |s|
  {
    if s == [] then ""
    else if s[0] != '%' then [s[0]] + Scan(s[1..])
    else
      var t := s[1..];
      var d := Directive(t, 0);
      d.out + Scan(t[d.next..])
  }

  /** `fmt.Errorf(text).Error()` for a `text` passed with no operands. */
  function Errorf(text: string): string {
    Scan(text)
  }

  /** Whether `s` is free of `%`, by a scan that a literal argument can be evaluated with. */
  function PercentFree(s: string): (b: bool)
    ensures b <==> '%' !in s
  {
    assert s != [] ==> s == [s[0]] + s[1..];
    if s == [] then true else s[0] != '%' && PercentFree(s[1..])
  }

  /** A text without `%` holds no directive and is printed unchanged. */
  lemma {:induction false} PercentFreeUnchanged(s: string)
    ensures '%' !in s ==> Errorf(s) == s
    decreases |s|
  {
    if s != [] && '%' !in s {
      assert s[0] in s;
      assert forall c :: c in s[1..] ==> c in s;
      PercentFreeUnchanged(s[1..]);
      assert s == [s[0]] + s[1..];
    }
  }

  /** The format string that prints `s` literally: every `%` doubled. */
  function Escape(s: string): (r: string)
    ensures |r| >= |s|
  {
    if s == [] then []
    else if s[0] == '%' then "%%" + Escape(s[1..])
    else [s[0]] + Escape(s[1..])
  }

  /** `%%` prints a single `%` and scanning resumes right after it. */
  lemma ScanPercentPercent(t: string)
    ensures Scan("%%" + t) == "%" + Scan(t)
  {
    var u := ("%%" + t)[1..];
    assert u == "%" + t;
    assert SkipFlags(u, 0) == 0;
    assert ArgNumber(u, 0) == Index(false, 0, false);
    assert ParseNum(u, 0, |u|).next == 0;
    assert Width(u, Index(false, 0, false)) == Stage(0, false, false, false);
    assert Precision(u, Stage(0, false, false, false)) == Stage(0, false, false, false);
    assert Directive(u, 0) == Piece("%", 1);
    assert u[1..] == t;
  }

  /** Escaping is the inverse of printing: the escaped text prints as the original. */
  lemma {:induction false} ErrorfEscape(s: string)
    ensures Errorf(Escape(s)) == s
    decreases |s|
  {
    if s != [] {
      ErrorfEscape(s[1..]);
      var e := Escape(s[1..]);
      if s[0] == '%' {
        ScanPercentPercent(e);
      } else {
        assert ([s[0]] + e)[1..] == e;
      }
      assert s == [s[0]] + s[1..];
    }
  }

  /** A character other than `%` is copied. */
  lemma ScanPlain(c: char, t: string)
    requires c != '%'
    ensures Scan([c] + t) == [c] + Scan(t)
  {
    assert ([c] + t)[1..] == t;
  }

  /** A `%` starts a directive parsed on the text after it. */
  lemma ScanDirective(t: string)
    ensures var d := Directive(t, 0); Scan(['%'] + t) == d.out + Scan(t[d.next..])
  {
    assert (['%'] + t)[1..] == t;
  }

  /** `Directive` on `20b`: the width `20` is read and `b` has no operand. */
  lemma DirectiveWidthVerb(t: string)
    requires t == "20b"
    ensures Directive(t, 0) == Piece(PercentBang + ['b'] + Missing, 3)
  {
    assert t[0] == '2' && t[1] == '0' && t[2] == 'b' && |t| == 3;
    assert SkipFlags(t, 0) == 0;
    assert ParseNumFrom(t, 2, 3, 20, true) == Num(20, true, 2);
    assert ParseNumFrom(t, 1, 3, 2, true) == Num(20, true, 2);
    assert Width(t, Index(false, 0, false)) == Stage(2, false, false, false);
  }

  /** A directive whose operand is missing: `%20b` keeps its width but has no operand for `b`. */
  lemma MissingOperand(s: string)
    requires s == "%20b"
    ensures Errorf(s) == PercentBang + ['b'] + Missing
  {
    var t := s[1..];
    DirectiveWidthVerb(t);
    assert s == ['%'] + t;
    ScanDirective(t);
    assert t[3..] == [];
  }

  /** Text without `%` in front of the rest is copied, and the rest is printed on its own. */
  lemma {:induction false} PlainPrefix(p: string, t: string)
    requires '%' !in p
    ensures Errorf(p + t) == p + Errorf(t)
    decreases |p|
  {
    if p != [] {
      assert p[0] in p;
      assert forall c :: c in p[1..] ==> c in p;
      PlainPrefix(p[1..], t);
      assert p + t == [p[0]] + (p[1..] + t);
      ScanPlain(p[0], p[1..] + t);
      assert p == [p[0]] + p[1..];
    } else {
      assert p + t == t;
    }
  }

  /** A `%` at the very end has no verb: `%` after any text without `%` prints as `%!(NOVERB)`. */
  lemma {:induction false} TrailingPercent(t: string)
    requires '%' !in t
    ensures Errorf(t + "%") == t + NoVerb
    decreases |t|
  {
    if t == [] {
      assert Width("", Index(false, 0, false)) == Stage(0, false, false, false);
      assert Directive("", 0) == Piece(NoVerb, 0);
      assert "" + "%" == ['%'] + "";
      ScanDirective("");
    } else {
      assert t[0] in t;
      assert forall c :: c in t[1..] ==> c in t;
      TrailingPercent(t[1..]);
      assert t + "%" == [t[0]] + (t[1..] + "%");
      ScanPlain(t[0], t[1..] + "%");
      assert t + NoVerb == [t[0]] + (t[1..] + NoVerb);
    }
  }

  /** `Directive` on `*d`: the `*` width and the verb both lack their operand. */
  lemma DirectiveStarWidth(t: string)
    requires t == "*d"
    ensures Directive(t, 0) == Piece(BadWidth + PercentBang + ['d'] + Missing, 2)
  {
    assert t[0] == '*' && t[1] == 'd' && |t| == 2;
    assert SkipFlags(t, 0) == 0;
    assert Width(t, Index(false, 0, false)) == Stage(1, false, true, false);
    assert Precision(t, Stage(1, false, true, false)) == Stage(1, false, false, false);
  }

  /** A `*` width has no operand to take, and neither has the verb after it. */
  lemma StarWidthWithoutOperand(s: string)
    requires s == "%*d"
    ensures Errorf(s) == BadWidth + PercentBang + ['d'] + Missing
  {
    var t := s[1..];
    DirectiveStarWidth(t);
    assert s == ['%'] + t;
    ScanDirective(t);
    assert t[2..] == [];
  }

  /** `ArgNumber` on `[1]d`: a well-formed index, skipped whole. */
  lemma ArgNumberIndex(t: string)
    requires t == "[1]d"
    ensures ArgNumber(t, 0) == Index(true, 3, true)
  {
    assert t[0] == '[' && t[1] == '1' && t[2] == ']' && t[3] == 'd' && |t| == 4;
    assert CloseBracket(t, 2) == Results.Some(2);
    assert ParseNumFrom(t, 2, 2, 1, true) == Num(1, true, 2);
    assert ParseNum(t, 1, 2) == Num(1, true, 2);
  }

  /** `Directive` on `[1]d`: the index is out of range, so the verb reports a bad index. */
  lemma DirectiveIndex(t: string)
    requires t == "[1]d"
    ensures Directive(t, 0) == Piece(PercentBang + ['d'] + BadIndex, 4)
  {
    assert t[0] == '[' && t[3] == 'd' && |t| == 4;
    assert SkipFlags(t, 0) == 0;
    ArgNumberIndex(t);
    assert ParseNum(t, 3, 4) == Num(0, false, 3);
    assert Width(t, Index(true, 3, true)) == Stage(3, true, false, true);
  }

  /** An explicit argument index can never be in range without operands. */
  lemma IndexWithoutOperand(s: string)
    requires s == "%[1]d"
    ensures Errorf(s) == PercentBang + ['d'] + BadIndex
  {
    var t := s[1..];
    DirectiveIndex(t);
    assert s == ['%'] + t;
    ScanDirective(t);
    assert t[4..] == [];
  }
}
