/** `NumberRangeEnd` and `NumberRange` of `pyutils/misc.py`: intervals of integers whose ends are each open
    or closed, compared end by end, tested for membership, and read from bracket strings such as
    `[0, 10)`. Float values are not modelled, so every present value is an `int`. */
module NumberRanges {
  import opened Wrappers
  import opened Text

  /** `NumberRangeEnd.LEFT` and `NumberRangeEnd.RIGHT`. */
  datatype Position = Left | Right

  /** One end of a range; `value` is `None` for an end the bracket string left empty. */
  datatype RangeEnd = RangeEnd(value: Option<int>, closed: bool, position: Position)

  /** `TypeError` from ordering a `None` value against another value; `ValueError` from `int()` applied
      to a matched number that has a decimal point. */
  datatype RangeError = TypeError | ValueError

  /** `__eq__`: value and closedness, whatever the positions. */
  function Eq(a: RangeEnd, b: RangeEnd): (r: bool)
    ensures r <==> a.(position := Left) == b.(position := Left)
  {
    a.value == b.value && a.closed == b.closed
  }

  /** `__lt__`: a smaller value is below; at equal values an open right end is below a closed one, and a
      closed left end is below an open one. */
  function Lt(a: RangeEnd, b: RangeEnd): (r: Result<bool, RangeError>)
    ensures r.Err? <==> a.value.None? || b.value.None?
    ensures r.Ok? && a.value.value < b.value.value ==> r.value
    ensures r.Ok? && a.value.value > b.value.value ==> !r.value
    ensures r.Ok? && Eq(a, b) ==> !r.value
    ensures r.Ok? && r.value ==> a.value.value <= b.value.value
    ensures r.Ok? && a.value == b.value && a.position == Right ==> (r.value <==> !a.closed && b.closed)
    ensures r.Ok? && a.value == b.value && a.position == Left ==> (r.value <==> a.closed && !b.closed)
  {
    if a.value.None? || b.value.None? then Err(TypeError)
    else
      var x, y := a.value.value, b.value.value;
      if x < y then Ok(true)
      else if x == y then
        if !a.closed && b.closed then Ok(a.position == Right)
        else if a.closed && !b.closed then Ok(a.position == Left)
        else Ok(false)
      else Ok(false)
  }

  /** `__gt__`: a larger value is above; at equal values a closed right end is above an open one, and an
      open left end is above a closed one. */
  function Gt(a: RangeEnd, b: RangeEnd): (r: Result<bool, RangeError>)
    ensures r.Err? <==> a.value.None? || b.value.None?
    ensures r.Ok? && a.value.value > b.value.value ==> r.value
    ensures r.Ok? && a.value.value < b.value.value ==> !r.value
    ensures r.Ok? && Eq(a, b) ==> !r.value
    ensures r.Ok? && r.value ==> a.value.value >= b.value.value
    ensures r.Ok? && a.value == b.value && a.position == Right ==> (r.value <==> a.closed && !b.closed)
    ensures r.Ok? && a.value == b.value && a.position == Left ==> (r.value <==> !a.closed && b.closed)
  {
    if a.value.None? || b.value.None? then Err(TypeError)
    else
      var x, y := a.value.value, b.value.value;
      if x > y then Ok(true)
      else if x == y then
        if a.closed && !b.closed then Ok(a.position == Right)
        else if !a.closed && b.closed then Ok(a.position == Left)
        else Ok(false)
      else Ok(false)
  }

  /** `__le__`: `self == item or self < item`, so equal ends never reach the ordering. */
  function Le(a: RangeEnd, b: RangeEnd): (r: Result<bool, RangeError>)
    ensures Eq(a, b) ==> r == Ok(true)
    ensures !Eq(a, b) ==> r == Lt(a, b)
  {
    if Eq(a, b) then Ok(true) else Lt(a, b)
  }

  /** `__ge__`: `self == item or self > item`. */
  function Ge(a: RangeEnd, b: RangeEnd): (r: Result<bool, RangeError>)
    ensures Eq(a, b) ==> r == Ok(true)
    ensures !Eq(a, b) ==> r == Gt(a, b)
  {
    if Eq(a, b) then Ok(true) else Gt(a, b)
  }

  /** Among ends with values at the same position, `<` and `>` are converse and exactly one of `<`, `==`,
      `>` holds: such ends are totally ordered. */
  lemma SamePositionOrder(a: RangeEnd, b: RangeEnd)
    requires a.value.Some? && b.value.Some? && a.position == b.position
    ensures Lt(a, b) == Gt(b, a)
    ensures (if Lt(a, b).value then 1 else 0) + (if Eq(a, b) then 1 else 0) +
            (if Lt(b, a).value then 1 else 0) == 1
  {
  }

  /** Among ends with values at the same position, `<` is transitive. */
  lemma SamePositionTransitive(a: RangeEnd, b: RangeEnd, c: RangeEnd)
    requires a.value.Some? && b.value.Some? && c.value.Some?
    requires a.position == b.position == c.position
    requires Lt(a, b) == Ok(true) && Lt(b, c) == Ok(true)
    ensures Lt(a, c) == Ok(true)
  {
  }

  /** Across positions the tie rules are not converse: an open right end and a closed left end at the same
      value are each below the other. */
  lemma MixedPositionsBothBelow(v: int)
    ensures Lt(RangeEnd(Some(v), false, Right), RangeEnd(Some(v), true, Left)) == Ok(true)
    ensures Lt(RangeEnd(Some(v), true, Left), RangeEnd(Some(v), false, Right)) == Ok(true)
  {
  }

  /** A range and the optional `base` its string form may carry. */
  datatype NumberRange = NumberRange(left: RangeEnd, right: RangeEnd, base: Option<int>)

  /** `STATUS_OK` .. `STATUS_INVALID_VALUE`. */
  datatype Status = StatusOk | LeftNone | RightNone | BothNone | InvalidValue
  {
    /** The integer constant: `STATUS_OK` is 1, which is what `valid` tests for. */
    function Code(): (c: int)
      ensures 1 <= c <= 5
      ensures c == 1 <==> this == StatusOk
    {
      match this
      case StatusOk => 1
      case LeftNone => 2
      case RightNone => 3
      case BothNone => 4
      case InvalidValue => 5
    }
  }

  /** The status a constant stands for, if any. */
  function StatusOfCode(c: int): (s: Option<Status>)
    ensures s.Some? <==> 1 <= c <= 5
    ensures s.Some? ==> s.value.Code() == c
  {
    if c == 1 then Some(StatusOk)
    else if c == 2 then Some(LeftNone)
    else if c == 3 then Some(RightNone)
    else if c == 4 then Some(BothNone)
    else if c == 5 then Some(InvalidValue)
    else None
  }

  /** Each status has its own constant: the constant gives the status back, so no two share one. */
  lemma CodeIdentifies(st: Status, other: Status)
    ensures StatusOfCode(st.Code()) == Some(st)
    ensures st.Code() == other.Code() ==> st == other
  {
  }

  /** `__contains__` for an `int`: strictly inside, or on an end that is closed. The left test runs first
      and the right one only when it passes, so a missing value raises only when it is reached. */
  function Contains(r: NumberRange, item: int): (b: Result<bool, RangeError>)
    ensures r.left.value.None? ==> b == Err(TypeError)
    ensures r.left.value.Some? && r.right.value.Some? ==> b.Ok?
    ensures b == Ok(true) ==> r.left.value.Some? && r.right.value.Some?
    ensures r.left.value.Some? && r.right.value.Some? ==>
      var lo, hi := r.left.value.value, r.right.value.value;
      && (lo < item < hi ==> b == Ok(true))
      && (item < lo || hi < item ==> b == Ok(false))
      && (item == lo < hi ==> b == Ok(r.left.closed))
      && (lo < hi == item ==> b == Ok(r.right.closed))
      && (lo == item == hi ==> b == Ok(r.left.closed && r.right.closed))
    ensures r.left.value.Some? && r.right.value.None? ==>
      var lo := r.left.value.value;
      b == (if lo < item || (r.left.closed && lo == item) then Err(TypeError) else Ok(false))
  {
    if r.left.value.None? then Err(TypeError)
    else
      var lo := r.left.value.value;
      if !(lo < item || (r.left.closed && lo == item)) then Ok(false)
      else if r.right.value.None? then Err(TypeError)
      else
        var hi := r.right.value.value;
        Ok(item < hi || (r.right.closed && hi == item))
  }

  /** `__contains__` for a range: `self.left <= item.left and self.right >= item.right`. */
  function ContainsRange(r: NumberRange, other: NumberRange): (b: Result<bool, RangeError>)
    ensures r.left == other.left && r.right == other.right ==> b == Ok(true)
    ensures r.left.value.Some? && r.right.value.Some? && other.left.value.Some? && other.right.value.Some?
      ==> b.Ok?
  {
    var leftOk := Le(r.left, other.left);
    if leftOk.Err? then Err(leftOk.error)
    else if !leftOk.value then Ok(false)
    else Ge(r.right, other.right)
  }

  /** Range containment is sound for membership: when a range contains another, every integer of the
      other is an integer of the range. */
  lemma ContainsRangeSound(r: NumberRange, other: NumberRange, x: int)
    requires r.left.position == other.left.position == Left
    requires r.right.position == other.right.position == Right
    requires ContainsRange(r, other) == Ok(true) && Contains(other, x) == Ok(true)
    ensures Contains(r, x) == Ok(true)
  {
  }

  /** `status`: the checks in the source's order, both ends missing first. */
  function GetStatus(r: NumberRange): (s: Status)
    ensures s == BothNone <==> r.left.value.None? && r.right.value.None?
    ensures s == LeftNone <==> r.left.value.None? && r.right.value.Some?
    ensures s == RightNone <==> r.left.value.Some? && r.right.value.None?
    ensures s == InvalidValue <==>
      r.left.value.Some? && r.right.value.Some? && r.left.value.value > r.right.value.value
  {
    if r.left.value.None? && r.right.value.None? then BothNone
    else if r.left.value.None? then LeftNone
    else if r.right.value.None? then RightNone
    else if r.left.value.value > r.right.value.value then InvalidValue
    else StatusOk
  }

  /** `valid`: both values present and in order. */
  function IsValid(r: NumberRange): (b: bool)
    ensures b <==> r.left.value.Some? && r.right.value.Some? && r.left.value.value <= r.right.value.value
  {
    GetStatus(r) == StatusOk
  }

  // ---------------------------------------------------------------------------------------------
  // from_string: `re.match(r"([\(\[])\s*(N)?\s*,?\s*(N)?\s*([\)\]])", s)` with N = `-?\d+\.?\d*`.
  //
  // `re.match` anchors at the start only and returns the first match in backtracking order. The two
  // optional groups are tried present before absent, and a present group with its greedy quantifiers
  // tries the ends where N can stop from the longest to the shortest. The `\s*` and `,?` between the
  // groups capture nothing, and neither group nor the closing bracket can start on a space or a comma,
  // so only their greedy extent matters.

  /** `\s` on the characters `str.isspace()` accepts. */
  predicate IsSpace(c: char) {
    c == ' ' || '\t' <= c <= '\r' || '\U{1c}' <= c <= '\U{1f}' || c == '\U{85}' || c == '\U{a0}' ||
    c == '\U{1680}' || '\U{2000}' <= c <= '\U{200a}' || c == '\U{2028}' || c == '\U{2029}' ||
    c == '\U{202f}' || c == '\U{205f}' || c == '\U{3000}'
  }

  /** The end of the greedy `\s*` from `i`. */
  function SkipSpaces(s: string, i: nat): (j: nat)
    requires i <= |s|
    ensures i <= j <= |s|
    ensures forall k :: i <= k < j ==> IsSpace(s[k])
    ensures j < |s| ==> !IsSpace(s[j])
    decreases |s| - i
  {
    if i < |s| && IsSpace(s[i]) then SkipSpaces(s, i + 1) else i
  }

  /** The end of the greedy `\s*,?\s*` from `i`. */
  function SkipSeparator(s: string, i: nat): (j: nat)
    requires i <= |s|
    ensures i <= j <= |s|
  {
    var k := SkipSpaces(s, i);
    if k < |s| && s[k] == ',' then SkipSpaces(s, k + 1) else k
  }

  /** The end of the greedy `\d*` from `i`. */
  function DigitsEnd(s: string, i: nat): (j: nat)
    requires i <= |s|
    ensures i <= j <= |s|
    ensures forall k :: i <= k < j ==> IsDigit(s[k])
    ensures j < |s| ==> !IsDigit(s[j])
    decreases |s| - i
  {
    if i < |s| && IsDigit(s[i]) then DigitsEnd(s, i + 1) else i
  }

  /** `t` is, as a whole, one N: an optional minus, digits, then optionally a point and more digits. */
  predicate IsNumberText(t: string) {
    var m := if |t| > 0 && t[0] == '-' then 1 else 0;
    var d := DigitsEnd(t, m);
    d > m && (d == |t| || (t[d] == '.' && DigitsEnd(t, d + 1) == |t|))
  }

  /** The closing bracket found after optional spaces from `i`, if there is one. */
  function Close(s: string, i: nat): (c: Option<char>)
    requires i <= |s|
    ensures c.Some? ==> c.value == ')' || c.value == ']'
  {
    var k := SkipSpaces(s, i);
    if k < |s| && (s[k] == ')' || s[k] == ']') then Some(s[k]) else None
  }

  /** The second group and the closing bracket, from position `r`: N over `s[r..e]` with `e` no
      larger than `end`, longest first, and then the second group left out. */
  function Group2(s: string, r: nat, end: nat): (g: Option<(Option<string>, char)>)
    requires r <= end <= |s|
    ensures g.Some? && g.value.0.Some? ==> IsNumberText(g.value.0.value)
    ensures g.Some? ==> g.value.1 == ')' || g.value.1 == ']'
    decreases end
  {
    if end > r && IsNumberText(s[r..end]) && Close(s, end).Some? then
      Some((Some(s[r..end]), Close(s, end).value))
    else if end > r then
      Group2(s, r, end - 1)
    else if Close(s, r).Some? then
      Some((None, Close(s, r).value))
    else
      None
  }

  /** The captured groups of a successful match: the opening bracket, the two optional numbers and the
      closing bracket. */
  datatype Groups = Groups(open: char, first: Option<string>, second: Option<string>, close: char)

  /** The first group and everything after it, from position `p`: N over `s[p..e]` with `e` no
      larger than `end`, longest first, each followed by the search for the rest; then the first
      group left out. */
  function Group1(s: string, p: nat, end: nat): (g: Option<(Option<string>, Option<string>, char)>)
    requires p <= end <= |s|
    ensures g.Some? && g.value.0.Some? ==> IsNumberText(g.value.0.value)
    ensures g.Some? && g.value.1.Some? ==> IsNumberText(g.value.1.value)
    ensures g.Some? ==> g.value.2 == ')' || g.value.2 == ']'
    decreases end
  {
    var rest := if end > p && IsNumberText(s[p..end]) then
      Group2(s, SkipSeparator(s, end), |s|) else None;
    if rest.Some? then
      Some((Some(s[p..end]), rest.value.0, rest.value.1))
    else if end > p then
      Group1(s, p, end - 1)
    else
      var tail := Group2(s, SkipSeparator(s, p), |s|);
      if tail.Some? then Some((None, tail.value.0, tail.value.1)) else None
  }

  /** `re.match` of the bracket pattern at the start of `s`. */
  function Match(s: string): (g: Option<Groups>)
    ensures g.Some? ==> |s| > 0 && g.value.open == s[0] && (s[0] == '(' || s[0] == '[')
    ensures g.Some? ==> g.value.close == ')' || g.value.close == ']'
    ensures g.Some? && g.value.first.Some? ==> IsNumberText(g.value.first.value)
    ensures g.Some? && g.value.second.Some? ==> IsNumberText(g.value.second.value)
  {
    if |s| == 0 || !(s[0] == '(' || s[0] == '[') then None
    else
      var p := SkipSpaces(s, 1);
      var inner := Group1(s, p, |s|);
      if inner.Some? then Some(Groups(s[0], inner.value.0, inner.value.1, inner.value.2)) else None
  }

  /** `int()` of a matched group: fine for digits with an optional minus, `ValueError` with a point. */
  function ToInt(t: Option<string>): (r: Result<Option<int>, RangeError>)
    ensures t.None? ==> r == Ok(None)
    ensures t.Some? && IsIntLiteral(t.value) ==> r == Ok(Some(ParseInt(t.value)))
    ensures t.Some? && !IsIntLiteral(t.value) ==> r == Err(ValueError)
  {
    if t.None? then Ok(None)
    else if IsIntLiteral(t.value) then Ok(Some(ParseInt(t.value)))
    else Err(ValueError)
  }

  /** `NumberRange.from_string(s, base=base)` with integer values: `None` when the pattern does not
      match; otherwise `[` makes the left end closed, `]` the right end, an absent number a `None` value,
      and `base` is stored. */
  function FromString(s: string, base: Option<int>): (r: Result<Option<NumberRange>, RangeError>)
    ensures Match(s).None? <==> r == Ok(None)
    ensures r.Ok? && r.value.Some? ==>
      var g := Match(s).value;
      var nr := r.value.value;
      && nr.left.closed == (s[0] == '[') && nr.right.closed == (g.close == ']')
      && nr.left.position == Left && nr.right.position == Right
      && (nr.left.value.None? <==> g.first.None?)
      && (nr.right.value.None? <==> g.second.None?)
      && (g.first.Some? ==> IsIntLiteral(g.first.value) && nr.left.value == Some(ParseInt(g.first.value)))
      && (g.second.Some? ==> IsIntLiteral(g.second.value) && nr.right.value == Some(ParseInt(g.second.value)))
      && nr.base == base
    ensures Match(s).Some? ==>
      var g := Match(s).value;
      r.Err? <==> (g.first.Some? && !IsIntLiteral(g.first.value)) ||
                  (g.second.Some? && !IsIntLiteral(g.second.value))
    ensures r.Err? ==> r.error == ValueError
  {
    var g := Match(s);
    if g.None? then Ok(None)
    else
      var lo := ToInt(g.value.first);
      if lo.Err? then Err(lo.error)
      else
        var hi := ToInt(g.value.second);
        if hi.Err? then Err(hi.error)
        else
          Ok(Some(NumberRange(RangeEnd(lo.value, g.value.open == '[', Left),
                              RangeEnd(hi.value, g.value.close == ']', Right), base)))
  }

  /** `str()` of an end value, `None` included. */
  function ValueText(v: Option<int>): string {
    if v.None? then "None" else IntToString(v.value)
  }

  /** `__repr__`: `[` or `(`, the two values separated by `, `, `]` or `)`, then `{base}` when a base is
      set. */
  function Repr(nr: NumberRange): (s: string)
    ensures |s| > 0 && s[0] == (if nr.left.closed then '[' else '(')
  {
    [if nr.left.closed then '[' else '('] + ValueText(nr.left.value) + ", " + ValueText(nr.right.value) +
    [if nr.right.closed then ']' else ')'] + (if nr.base.None? then "" else "{" + IntToString(nr.base.value) + "}")
  }

  /** Every character of an N is a digit, a minus or a point. */
  lemma NumberTextChars(t: string)
    requires IsNumberText(t)
    ensures forall i :: 0 <= i < |t| ==> IsDigit(t[i]) || t[i] == '-' || t[i] == '.'
  {
    var m := if |t| > 0 && t[0] == '-' then 1 else 0;
    var d := DigitsEnd(t, m);
    if d < |t| {
      var _ := DigitsEnd(t, d + 1);
    }
  }

  /** `str(n)` is an N that starts with neither a space nor a comma. */
  lemma IntToStringNumber(n: int)
    ensures IsNumberText(IntToString(n))
    ensures IsDigit(IntToString(n)[0]) || IntToString(n)[0] == '-'
  {
    var t := IntToString(n);
    var m := if |t| > 0 && t[0] == '-' then 1 else 0;
    if n < 0 {
      assert t[1..] == Digits(-n);
    }
    assert forall k :: m <= k < |t| ==> IsDigit(t[k]);
  }

  /** Ends past `stop` where no N ends are skipped by the first-group search. */
  lemma {:induction false} Group1Skip(s: string, p: nat, end: nat, stop: nat)
    requires p <= stop <= end <= |s|
    requires forall e :: stop < e <= end ==> !IsNumberText(s[p..e])
    ensures Group1(s, p, end) == Group1(s, p, stop)
    decreases end
  {
    if end > stop {
      assert !IsNumberText(s[p..end]);
      assert Group1(s, p, end) == Group1(s, p, end - 1);
      Group1Skip(s, p, end - 1, stop);
    }
  }

  /** Ends past `stop` where no N ends are skipped by the second-group search. */
  lemma {:induction false} Group2Skip(s: string, r: nat, end: nat, stop: nat)
    requires r <= stop <= end <= |s|
    requires forall e :: stop < e <= end ==> !IsNumberText(s[r..e])
    ensures Group2(s, r, end) == Group2(s, r, stop)
    decreases end
  {
    if end > stop {
      assert !IsNumberText(s[r..end]);
      assert Group2(s, r, end) == Group2(s, r, end - 1);
      Group2Skip(s, r, end - 1, stop);
    }
  }

  /** No N starting at `p` reaches past a character at `k` that is not part of a number. */
  lemma NoNumberAcross(s: string, p: nat, k: nat)
    requires p <= k < |s|
    requires !(IsDigit(s[k]) || s[k] == '-' || s[k] == '.')
    ensures forall e :: k < e <= |s| ==> !IsNumberText(s[p..e])
  {
    forall e | k < e <= |s| && IsNumberText(s[p..e])
      ensures false
    {
      NumberTextChars(s[p..e]);
    }
  }

  /** The second-group search takes the longest N from `r` when a closing bracket follows it. */
  lemma Group2FindsNumber(s: string, r: nat, e: nat)
    requires r < e < |s|
    requires IsNumberText(s[r..e]) && (s[e] == ')' || s[e] == ']')
    ensures Group2(s, r, |s|) == Some((Some(s[r..e]), s[e]))
  {
    NoNumberAcross(s, r, e);
    Group2Skip(s, r, |s|, e);
    assert SkipSpaces(s, e) == e;
  }

  /** The first-group search takes the longest N from `p` when the rest of the pattern matches after
      it. */
  lemma Group1FindsNumber(s: string, p: nat, e: nat)
    requires p < e < |s|
    requires IsNumberText(s[p..e]) && !(IsDigit(s[e]) || s[e] == '-' || s[e] == '.')
    requires Group2(s, SkipSeparator(s, e), |s|).Some?
    ensures Group1(s, p, |s|) ==
      Some((Some(s[p..e]), Group2(s, SkipSeparator(s, e), |s|).value.0,
            Group2(s, SkipSeparator(s, e), |s|).value.1))
  {
    NoNumberAcross(s, p, e);
    Group1Skip(s, p, |s|, e);
  }

  /** Where the pieces of an opening bracket, N, `, `, N and a closing bracket sit. */
  lemma PairLayout(o: char, a: string, b: string, c: char, tail: string)
    requires a != [] && b != []
    ensures var s := [o] + a + ", " + b + [c] + tail;
      var e0 := 1 + |a|; var r := e0 + 2; var e1 := r + |b|;
      && |s| == e1 + 1 + |tail| && s[0] == o
      && s[1..e0] == a && s[1] == a[0]
      && s[e0] == ',' && s[e0 + 1] == ' '
      && s[r..e1] == b && s[r] == b[0] && s[e1] == c
  {
    var s := [o] + a + ", " + b + [c] + tail;
    var e0 := 1 + |a|;
    var r := e0 + 2;
    var e1 := r + |b|;
    assert s[1..e0] == a;
    assert s[r..e1] == b;
  }

  /** The bracket pattern matches an opening bracket, N, `, `, N and a closing bracket, whatever
      follows. */
  lemma {:induction false} MatchPair(o: char, a: string, b: string, c: char, tail: string)
    requires o == '(' || o == '['
    requires c == ')' || c == ']'
    requires IsNumberText(a) && (IsDigit(a[0]) || a[0] == '-')
    requires IsNumberText(b) && (IsDigit(b[0]) || b[0] == '-')
    ensures Match([o] + a + ", " + b + [c] + tail) == Some(Groups(o, Some(a), Some(b), c))
  {
    var s := [o] + a + ", " + b + [c] + tail;
    var e0 := 1 + |a|;
    var r := e0 + 2;
    var e1 := r + |b|;
    PairLayout(o, a, b, c, tail);
    assert s[1..e0] == a && s[r..e1] == b && s[e1] == c;
    assert !IsSpace(s[1]) && !IsSpace(s[e0]) && IsSpace(s[e0 + 1]) && !IsSpace(s[r]);
    assert SkipSpaces(s, 1) == 1;
    assert SkipSpaces(s, e0) == e0;
    assert SkipSpaces(s, r) == r;
    assert SkipSpaces(s, e0 + 1) == r;
    assert SkipSeparator(s, e0) == r;
    Group2FindsNumber(s, r, e1);
    assert Group2(s, SkipSeparator(s, e0), |s|) == Some((Some(b), c));
    Group1FindsNumber(s, 1, e0);
    assert Group1(s, SkipSpaces(s, 1), |s|) == Some((Some(a), Some(b), c));
  }

  /** A missing first number gives a left end with no value, which `status` reports as LEFT_NONE. */
  lemma ShortFormLeftMissing()
    ensures FromString("(,5]", None) ==
      Ok(Some(NumberRange(RangeEnd(None, false, Left), RangeEnd(Some(5), true, Right), None)))
    ensures GetStatus(FromString("(,5]", None).value.value) == LeftNone
  {
    var s := "(,5]";
    assert SkipSpaces(s, 1) == 1 && SkipSpaces(s, 2) == 2 && SkipSpaces(s, 3) == 3;
    assert SkipSeparator(s, 1) == 2;
    NoNumberAcross(s, 1, 1);
    Group1Skip(s, 1, 4, 1);
    assert DigitsEnd(s[2..4], 0) == 1;
    assert !IsNumberText(s[2..4]);
    assert s[2..3] == "5" && DigitsEnd("5", 0) == 1 && IsNumberText("5");
    assert Close(s, 3) == Some(']');
    assert Group2(s, 2, 4) == Some((Some("5"), ']'));
    assert Match(s) == Some(Groups('(', None, Some("5"), ']'));
    assert IsIntLiteral("5") && ParseInt("5") == 5;
  }

  /** A string with no closing bracket does not match. */
  lemma ShortFormUnclosed()
    ensures FromString("[1", None) == Ok(None)
  {
    var s := "[1";
    assert SkipSpaces(s, 1) == 1 && SkipSpaces(s, 2) == 2;
    assert SkipSeparator(s, 1) == 1 && SkipSeparator(s, 2) == 2;
    assert Close(s, 1).None? && Close(s, 2).None?;
    assert Group2(s, 2, 2).None?;
    assert Group2(s, 1, 1).None? && Group2(s, 1, 2).None?;
    assert Group1(s, 1, 1).None?;
    assert Group1(s, 1, 2).None?;
  }

  /** `from_string`, given the range's `base` as its argument, reads back the string form of a range
      with integer values: the trailing `{base}` lies after the closing bracket, where the match has
      already ended, so it is ignored. */
  lemma {:induction false} ReprParses(nr: NumberRange)
    requires nr.left.value.Some? && nr.right.value.Some?
    requires nr.left.position == Left && nr.right.position == Right
    ensures FromString(Repr(nr), nr.base) == Ok(Some(nr))
  {
    var a, b := IntToString(nr.left.value.value), IntToString(nr.right.value.value);
    var o := if nr.left.closed then '[' else '(';
    var c := if nr.right.closed then ']' else ')';
    var tail := if nr.base.None? then "" else "{" + IntToString(nr.base.value) + "}";
    assert Repr(nr) == [o] + a + ", " + b + [c] + tail;
    IntToStringNumber(nr.left.value.value);
    IntToStringNumber(nr.right.value.value);
    MatchPair(o, a, b, c, tail);
    IntToStringParses(nr.left.value.value);
    IntToStringParses(nr.right.value.value);
  }
}
