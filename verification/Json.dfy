/** Canonical text for register values: one text for every spelling of one JSON value, and for
    no other. */
module Json {
  import opened Wrappers

  /** A number as spelled: its text, and `mantissa` times ten to the `exponent`. A plain
      one has neither fraction nor exponent. */
  datatype Number = Number(text: string, mantissa: int, exponent: int, plain: bool)

  datatype Json =
    | JNull
    | JBool(b: bool)
    | JNumber(n: Number)
    | JString(s: string)
    | JArray(items: seq<Json>)
    | JObject(members: seq<Member>)

  /** A decoded object's members come in no particular order, each key once. */
  datatype Member = Member(key: string, value: Json)

  /** What the language's library does: which numbers are floats, rounding a number to the
      nearest, if one is in range; the shortest text of a float; and the escape of a
      character in a string. */
  datatype Library = Library(isFloat: real -> bool, round: real -> Option<real>, format: real -> string,
                             escape: char -> string)

  const EXACT_LIMIT := 9007199254740992
  const INT64_LIMIT := 9223372036854775808

  // --- Numbers ----------------------------------------------------------------------------------

  function Digit(d: nat): (c: char)
    requires d < 10
    ensures '0' <= c <= '9' && c as int - '0' as int == d
  {
    ['0', '1', '2', '3', '4', '5', '6', '7', '8', '9'][d]
  }

  function Digits(n: nat): string {
    if n < 10 then [Digit(n)] else Digits(n / 10) + [Digit(n % 10)]
  }

  function Decimal(i: int): string {
    if i < 0 then ['-'] + Digits(-i) else Digits(i)
  }

  function Power10(e: nat): real {
    if e == 0 then 1.0 else 10.0 * Power10(e - 1)
  }

  lemma {:induction false} Power10Positive(e: nat)
    ensures Power10(e) > 0.0
  {
    if e > 0 {
      Power10Positive(e - 1);
    }
  }

  function ValueOf(n: Number): real {
    if n.exponent >= 0 then n.mantissa as real * Power10(n.exponent)
    else Power10Positive(-n.exponent); n.mantissa as real / Power10(-n.exponent)
  }

  ghost predicate NumberChar(c: char) {
    c in "0123456789+-.eE"
  }

  /** A JSON number's text: number characters, starting with a digit or a minus. */
  ghost predicate NumberText(s: string) {
    s != [] && s[0] in "0123456789-" && forall i :: 0 <= i < |s| ==> NumberChar(s[i])
  }

  /** The text spells this number: a plain decimal spells its integer, and no other. */
  ghost predicate WellSpelled(n: Number) {
    && NumberText(n.text) && (n.plain ==> n.exponent == 0)
    && forall i: int :: n.text == Decimal(i) ==> n.plain && n.mantissa == i
  }

  /** The text of a float that is not a small integer is no integer's, and spells no other
      number. */
  ghost predicate FormatsWell(lib: Library) {
    && (forall f :: Formatted(lib, f) ==> NumberText(lib.format(f)) && forall i: int :: lib.format(f) != Decimal(i))
    && (forall f, g :: Formatted(lib, f) && Formatted(lib, g) && lib.format(f) == lib.format(g) ==> f == g)
  }

  /** Floats that are written as floats. */
  ghost predicate Formatted(lib: Library, f: real) {
    lib.isFloat(f) && !SmallInteger(f)
  }

  ghost predicate RoundsWell(lib: Library) {
    && (forall x :: lib.round(x).Some? ==> lib.isFloat(lib.round(x).value))
    && (forall i: int :: -EXACT_LIMIT < i < EXACT_LIMIT ==> Exact(lib, i))
    && forall x :: AtLeastLimit(x) && lib.round(x).Some? ==> AtLeastLimit(lib.round(x).value)
  }

  ghost predicate Exact(lib: Library, i: int) {
    lib.round(i as real) == Some(i as real)
  }

  ghost predicate AtLeastLimit(x: real) {
    x >= EXACT_LIMIT as real || x <= -EXACT_LIMIT as real
  }

  predicate SmallInteger(f: real) {
    f.Floor as real == f && -EXACT_LIMIT as real < f < EXACT_LIMIT as real
  }

  /** What a number is reduced to. */
  datatype Reduced = Whole(i: int) | Float(f: real) | AsSpelled(text: string)

  ghost function Reduce(lib: Library, n: Number): Reduced {
    if n.plain && -INT64_LIMIT <= n.mantissa < INT64_LIMIT then Whole(n.mantissa)
    else
      var f := lib.round(ValueOf(n));
      if f.None? then AsSpelled(n.text)
      else if SmallInteger(f.value) then Whole(f.value.Floor)
      else Float(f.value)
  }

  ghost function ReducedText(lib: Library, r: Reduced): string {
    match r
    case Whole(i) => Decimal(i)
    case Float(f) => lib.format(f)
    case AsSpelled(t) => t
  }

  ghost function NumberToText(lib: Library, n: Number): string {
    ReducedText(lib, Reduce(lib, n))
  }

  lemma DigitInjective(d: nat, e: nat)
    requires d < 10 && e < 10 && Digit(d) == Digit(e)
    ensures d == e
  {
  }

  lemma LastDigit(n: nat)
    ensures |Digits(n)| >= 1 && Digits(n)[|Digits(n)| - 1] == Digit(n % 10)
    ensures n >= 10 ==> Digits(n)[..|Digits(n)| - 1] == Digits(n / 10)
  {
    hide Digit;
  }

  lemma {:induction false} DigitsInjective(m: nat, n: nat)
    requires Digits(m) == Digits(n)
    ensures m == n
  {
    DigitsLength(m);
    DigitsLength(n);
    LastDigit(m);
    LastDigit(n);
    hide Digit, Digits;
    DigitInjective(m % 10, n % 10);
    if m >= 10 && n >= 10 {
      DigitsInjective(m / 10, n / 10);
    }
  }

  lemma {:induction false} DigitsLength(n: nat)
    ensures |Digits(n)| >= 1 && (|Digits(n)| == 1 <==> n < 10)
    ensures forall i :: 0 <= i < |Digits(n)| ==> Digits(n)[i] in "0123456789"
  {
    if n >= 10 {
      DigitsLength(n / 10);
    }
  }

  /** The number that digits stand for in base ten. */
  ghost function Evaluate(s: string): int {
    if s == [] then 0 else 10 * Evaluate(s[..|s| - 1]) + (s[|s| - 1] as int - '0' as int)
  }

  /** The digits of a number evaluate to it, with no zero in front. */
  lemma {:induction false} DigitsEvaluate(n: nat)
    ensures Evaluate(Digits(n)) == n
    ensures Digits(n)[0] == '0' ==> n == 0
  {
    LastDigit(n);
    if n >= 10 {
      DigitsEvaluate(n / 10);
      DigitsLength(n / 10);
    } else {
      assert Digits(n)[..0] == [];
    }
  }

  /** A decimal exponent is a power of ten. */
  lemma ExponentScales(n: Number)
    ensures n.exponent == 0 ==> ValueOf(n) == n.mantissa as real
    ensures n.exponent > 0 ==> ValueOf(n) == 10.0 * ValueOf(n.(exponent := n.exponent - 1))
    ensures n.exponent < 0 ==> 10.0 * ValueOf(n) == ValueOf(n.(exponent := n.exponent + 1))
  {
    if n.exponent < 0 {
      var e := -n.exponent - 1;
      Power10Positive(e);
      TenTimes(n.mantissa as real, Power10(e));
    }
  }

  lemma TenTimes(m: real, p: real)
    requires p > 0.0
    ensures 10.0 * (m / (10.0 * p)) == m / p
  {
  }

  lemma DecimalSign(i: int)
    ensures Decimal(i) != [] && (i < 0 <==> Decimal(i)[0] == '-')
    ensures i < 0 ==> Decimal(i)[1..] == Digits(-i)
  {
    DigitsLength(if i < 0 then -i else i);
    hide Digits;
  }

  lemma DecimalInjective(i: int, j: int)
    requires Decimal(i) == Decimal(j)
    ensures i == j
  {
    DecimalSign(i);
    DecimalSign(j);
    hide Digits;
    if i < 0 {
      DigitsInjective(-i, -j);
    } else {
      DigitsInjective(i, j);
    }
  }

  lemma DecimalIsNumber(i: int)
    ensures NumberText(Decimal(i))
  {
    DigitsLength(if i < 0 then -i else i);
  }

  /** A float's text is no out-of-range number's: it spells that float. */
  ghost predicate FormatsInRange(lib: Library, n: Number) {
    forall f :: Formatted(lib, f) && n.text == lib.format(f) ==> lib.round(ValueOf(n)).Some?
  }

  ghost predicate Sane(lib: Library, n: Number) {
    WellSpelled(n) && FormatsInRange(lib, n)
  }

  lemma NumberTextIs(lib: Library, n: Number)
    requires FormatsWell(lib) && RoundsWell(lib) && Sane(lib, n)
    ensures NumberText(NumberToText(lib, n))
  {
    if Reduce(lib, n).Whole? {
      DecimalIsNumber(Reduce(lib, n).i);
    }
  }

  /** Two numbers have one text exactly when they reduce to the same. */
  lemma NumbersUnambiguous(lib: Library, m: Number, n: Number)
    requires FormatsWell(lib) && RoundsWell(lib) && Sane(lib, m) && Sane(lib, n)
    ensures NumberToText(lib, m) == NumberToText(lib, n) <==> Reduce(lib, m) == Reduce(lib, n)
  {
    var a, b := Reduce(lib, m), Reduce(lib, n);
    if ReducedText(lib, a) == ReducedText(lib, b) {
      if a.Whole? && b.Whole? {
        DecimalInjective(a.i, b.i);
      }
    }
  }

  /** Decimal digits alone, within 64 bits. */
  ghost predicate Plain64(n: Number) {
    n.plain && -9223372036854775808 <= n.mantissa < 9223372036854775808
  }

  /** An integer below 2^53, as a float. */
  ghost predicate Integral(f: real) {
    f == f.Floor as real && -9007199254740992.0 < f < 9007199254740992.0
  }

  /** How a number is written: 64-bit decimals as they are, everything else by its nearest float,
      which is a decimal when it is an integer below 2^53 and otherwise is not any integer's
      text; and as it was spelled when there is no such float. */
  lemma NumberTextExactly(lib: Library, n: Number)
    requires FormatsWell(lib) && RoundsWell(lib)
    ensures Plain64(n) ==> NumberToText(lib, n) == Decimal(n.mantissa)
    ensures !Plain64(n) && lib.round(ValueOf(n)).None? ==> NumberToText(lib, n) == n.text
    ensures !Plain64(n) && lib.round(ValueOf(n)).Some? ==>
      var f := lib.round(ValueOf(n)).value;
      if Integral(f) then NumberToText(lib, n) == Decimal(f.Floor)
      else NumberToText(lib, n) == lib.format(f) && forall i: int :: NumberToText(lib, n) != Decimal(i)
  {
    if !Plain64(n) && lib.round(ValueOf(n)).Some? && !Integral(lib.round(ValueOf(n)).value) {
      assert Formatted(lib, lib.round(ValueOf(n)).value);
    }
  }

  /** Numbers that are not 64-bit decimals have one text exactly when one float is nearest to
      both. */
  lemma RoundedAlike(lib: Library, m: Number, n: Number)
    requires FormatsWell(lib) && RoundsWell(lib) && !Plain64(m) && !Plain64(n)
    requires lib.round(ValueOf(m)).Some? && lib.round(ValueOf(n)).Some?
    ensures NumberToText(lib, m) == NumberToText(lib, n) <==> lib.round(ValueOf(m)) == lib.round(ValueOf(n))
  {
    hide NumberToText, FormatsWell, RoundsWell;
    var f, g := lib.round(ValueOf(m)).value, lib.round(ValueOf(n)).value;
    NumberTextExactly(lib, m);
    NumberTextExactly(lib, n);
    if NumberToText(lib, m) == NumberToText(lib, n) {
      if Integral(f) && Integral(g) {
        DecimalInjective(f.Floor, g.Floor);
      } else if !Integral(f) && !Integral(g) {
        OneFormat(lib, m, n);
      }
    }
  }

  lemma OneFormat(lib: Library, m: Number, n: Number)
    requires FormatsWell(lib) && RoundsWell(lib)
    requires lib.round(ValueOf(m)).Some? && lib.round(ValueOf(n)).Some?
    ensures var f, g := lib.round(ValueOf(m)).value, lib.round(ValueOf(n)).value;
      !Integral(f) && !Integral(g) && lib.format(f) == lib.format(g) ==> f == g
  {
    var f, g := lib.round(ValueOf(m)).value, lib.round(ValueOf(n)).value;
    assert !Integral(f) && !Integral(g) ==> Formatted(lib, f) && Formatted(lib, g);
  }

  /** A 64-bit decimal and another number have one text exactly when that decimal is below 2^53
      and is the float nearest to the other. */
  lemma PlainAndRounded(lib: Library, m: Number, n: Number)
    requires FormatsWell(lib) && RoundsWell(lib) && Plain64(m) && !Plain64(n) && lib.round(ValueOf(n)).Some?
    ensures NumberToText(lib, m) == NumberToText(lib, n) <==>
            lib.round(ValueOf(n)).value == m.mantissa as real
            && -9007199254740992 < m.mantissa < 9007199254740992
  {
    hide NumberToText, FormatsWell, RoundsWell;
    var f := lib.round(ValueOf(n)).value;
    NumberTextExactly(lib, m);
    NumberTextExactly(lib, n);
    if Integral(f) && Decimal(m.mantissa) == Decimal(f.Floor) {
      DecimalInjective(m.mantissa, f.Floor);
    }
  }

  /** Every spelling of an integer below 2^53 reduces to that integer. */
  lemma SpellingsAgree(lib: Library, n: Number, v: int)
    requires RoundsWell(lib) && (n.plain ==> n.exponent == 0) && ValueOf(n) == v as real
    requires -EXACT_LIMIT < v < EXACT_LIMIT
    ensures Reduce(lib, n) == Whole(v) && NumberToText(lib, n) == Decimal(v)
  {
    assert Exact(lib, v);
    if n.plain {
      assert ValueOf(n) == n.mantissa as real;
    }
  }

  /** A plain spelling and another of the same 64-bit integer agree exactly below 2^53. */
  lemma SpellingsAgreeBelowLimit(lib: Library, m: Number, n: Number, v: int)
    requires RoundsWell(lib) && m.plain && m.exponent == 0 && !n.plain
    requires ValueOf(m) == v as real == ValueOf(n) && -INT64_LIMIT <= v < INT64_LIMIT
    ensures Reduce(lib, m) == Reduce(lib, n) <==> -EXACT_LIMIT < v < EXACT_LIMIT
  {
    assert ValueOf(m) == m.mantissa as real;
    if -EXACT_LIMIT < v < EXACT_LIMIT {
      SpellingsAgree(lib, m, v);
      SpellingsAgree(lib, n, v);
    } else {
      assert AtLeastLimit(v as real);
    }
  }

  // --- The text ---------------------------------------------------------------------------------

  /** Code point order. */
  predicate Before(a: string, b: string) {
    if b == [] then false
    else a == [] || a[0] < b[0] || (a[0] == b[0] && Before(a[1..], b[1..]))
  }

  lemma {:induction false} BeforeTransitive(a: string, b: string, c: string)
    requires Before(a, b) && Before(b, c)
    ensures Before(a, c)
  {
    if a != [] && a[0] == b[0] == c[0] {
      BeforeTransitive(a[1..], b[1..], c[1..]);
    }
  }

  lemma {:induction false} BeforeTotal(a: string, b: string)
    ensures a == b || Before(a, b) || Before(b, a)
    ensures !(Before(a, b) && Before(b, a)) && !Before(a, a)
  {
    if a != [] && b != [] {
      BeforeTotal(a[1..], b[1..]);
      assert a[0] == b[0] && a[1..] == b[1..] ==> a == [a[0]] + a[1..] == [b[0]] + b[1..] == b;
    } else if a != [] {
      BeforeTotal(a[1..], a[1..]);
    }
  }

  function PutMember(m: Member, ms: seq<Member>): (r: seq<Member>)
    ensures |r| == |ms| + 1 && SizeMembers(r) == SizeMembers(ms) + 1 + Size(m.value)
  {
    if ms == [] || !Before(ms[0].key, m.key) then
      assert ([m] + ms)[1..] == ms;
      [m] + ms
    else
      var rest := PutMember(m, ms[1..]);
      assert ([ms[0]] + rest)[1..] == rest;
      [ms[0]] + rest
  }

  /** The members, by key. */
  function SortMembers(ms: seq<Member>): (r: seq<Member>)
    ensures |r| == |ms| && SizeMembers(r) == SizeMembers(ms)
  {
    if ms == [] then [] else PutMember(ms[0], SortMembers(ms[1..]))
  }

  ghost function Size(v: Json): nat {
    match v
    case JArray(items) => 1 + SizeItems(items)
    case JObject(ms) => 1 + SizeMembers(ms)
    case _ => 1
  }

  ghost function SizeItems(items: seq<Json>): nat {
    if items == [] then 0 else 1 + Size(items[0]) + SizeItems(items[1..])
  }

  ghost function SizeMembers(ms: seq<Member>): nat {
    if ms == [] then 0 else 1 + Size(ms[0].value) + SizeMembers(ms[1..])
  }

  ghost function Escaped(lib: Library, s: string): string {
    if s == [] then [] else lib.escape(s[0]) + Escaped(lib, s[1..])
  }

  ghost function Quoted(lib: Library, s: string): string {
    ['"'] + Escaped(lib, s) + ['"']
  }

  /** The canonical text of a value. */
  ghost function Text(lib: Library, v: Json): string
    decreases Size(v), 0
  {
    match v
    case JNull => "null"
    case JBool(b) => if b then "true" else "false"
    case JNumber(n) => NumberToText(lib, n)
    case JString(s) => Quoted(lib, s)
    case JArray(items) => ['['] + ItemsText(lib, items, true)
    case JObject(ms) => ['{'] + MembersText(lib, SortMembers(ms), true)
  }

  function Comma(first: bool): string { if first then [] else [','] }

  /** What follows the opening bracket, or an item. */
  ghost function ItemsText(lib: Library, items: seq<Json>, first: bool): (r: string)
    ensures r != []
    decreases SizeItems(items), 1
  {
    if items == [] then [']']
    else Comma(first) + Text(lib, items[0]) + ItemsText(lib, items[1..], false)
  }

  ghost function MembersText(lib: Library, ms: seq<Member>, first: bool): (r: string)
    ensures r != []
    decreases SizeMembers(ms), 1
  {
    if ms == [] then ['}']
    else Comma(first) + Quoted(lib, ms[0].key) + [':'] + Text(lib, ms[0].value) + MembersText(lib, ms[1..], false)
  }

  lemma ArrayText(lib: Library, x: Json, y: Json)
    ensures Text(lib, JArray([x, y])) == ['['] + Text(lib, x) + [','] + Text(lib, y) + [']']
    ensures Text(lib, JArray([])) == "[]" && Text(lib, JObject([])) == "{}"
  {
    var items := [x, y];
    assert items[1..] == [y] && [y][1..] == [];
    assert ItemsText(lib, [y], false) == [','] + Text(lib, y) + [']'];
    assert ItemsText(lib, items, true) == [] + Text(lib, x) + ItemsText(lib, [y], false);
  }

  /** An object's members stand in the order of their keys, whatever order they come in. */
  lemma ObjectText(lib: Library, j: string, k: string, x: Json, y: Json)
    requires Before(j, k)
    ensures Text(lib, JObject([Member(k, y), Member(j, x)])) ==
            ['{'] + Quoted(lib, j) + [':'] + Text(lib, x) + [','] + Quoted(lib, k) + [':'] + Text(lib, y) + ['}']
  {
    hide *;
    var a, b := Member(j, x), Member(k, y);
    SortTwo(a, b);
    TwoMembers(lib, a, b);
    OfObject(lib, [b, a], [a, b]);
  }

  lemma OfObject(lib: Library, ms: seq<Member>, sorted: seq<Member>)
    requires SortMembers(ms) == sorted
    ensures Text(lib, JObject(ms)) == ['{'] + MembersText(lib, sorted, true)
  {
    hide MembersText, SortMembers;
  }

  lemma SortTwo(a: Member, b: Member)
    requires Before(a.key, b.key)
    ensures SortMembers([b, a]) == [a, b]
  {
    hide Before;
    BeforeTotal(a.key, b.key);
    assert [b, a][1..] == [a] && [a][1..] == [];
    assert SortMembers([a]) == [a];
    assert PutMember(b, [a]) == [a] + PutMember(b, []);
  }

  lemma TwoMembers(lib: Library, a: Member, b: Member)
    ensures MembersText(lib, [a, b], true) ==
            Quoted(lib, a.key) + [':'] + Text(lib, a.value) + [','] + Quoted(lib, b.key) + [':'] + Text(lib,
              b.value) + ['}']
  {
    hide Quoted, Text;
    assert [a, b][1..] == [b] && [b][1..] == [];
    var last := [','] + Quoted(lib, b.key) + [':'] + Text(lib, b.value) + ['}'];
    assert MembersText(lib, [b], false) == last;
    assert MembersText(lib, [a, b], true) == [] + Quoted(lib, a.key) + [':'] + Text(lib, a.value) + last;
  }

  // --- One text, one value -----------------------------------------------------------------------

  ghost predicate EscapesWell(lib: Library) {
    && (forall c :: lib.escape(c) != [] && lib.escape(c)[0] != '"')
    && forall c, d :: c != d ==> !(lib.escape(c) <= lib.escape(d))
  }

  /** Keys are distinct and numbers well spelled, all the way down. */
  ghost predicate Valid(lib: Library, v: Json) {
    match v
    case JNumber(n) => Sane(lib, n)
    case JArray(items) => forall i :: 0 <= i < |items| ==> Valid(lib, items[i])
    case JObject(ms) =>
      (forall i :: 0 <= i < |ms| ==> Valid(lib, ms[i].value)) && Distinct(ms)
    case _ => true
  }

  ghost predicate Distinct(ms: seq<Member>) {
    forall i, j :: 0 <= i < j < |ms| ==> ms[i].key != ms[j].key
  }

  ghost predicate HasKey(ms: seq<Member>, k: string) {
    exists i :: 0 <= i < |ms| && ms[i].key == k
  }

  /** Equal up to the order of object members and the spelling of numbers. */
  ghost predicate Same(lib: Library, a: Json, b: Json)
    decreases a
  {
    match (a, b)
    case (JNull, JNull) => true
    case (JBool(x), JBool(y)) => x == y
    case (JNumber(m), JNumber(n)) => Reduce(lib, m) == Reduce(lib, n)
    case (JString(s), JString(t)) => s == t
    case (JArray(xs), JArray(ys)) => |xs| == |ys| && forall i :: 0 <= i < |xs| ==> Same(lib, xs[i], ys[i])
    case (JObject(ms), JObject(ns)) =>
      && (forall i :: 0 <= i < |ms| ==> HasKey(ns, ms[i].key))
      && (forall j :: 0 <= j < |ns| ==> HasKey(ms, ns[j].key))
      && forall i, j :: 0 <= i < |ms| && 0 <= j < |ns| && ms[i].key == ns[j].key ==> Same(lib, ms[i].value, ns[j].value)
    case _ => false
  }

  /** Text that can follow a value: nothing, or something no number goes on with. */
  ghost predicate Stops(s: string) {
    s == [] || !NumberChar(s[0])
  }

  lemma NextChar(x: string, y: string, s: string, t: string)
    requires |x| < |y| && x + s == y + t
    ensures s != [] && s[0] == y[|x|]
  {
    assert (x + s)[|x|] == (y + t)[|x|];
  }

  lemma SplitAt(x: string, y: string, s: string, t: string)
    requires |x| == |y| && x + s == y + t
    ensures x == y && s == t
  {
    assert (x + s)[..|x|] == x && (y + t)[..|y|] == y;
    assert (x + s)[|x|..] == s && (y + t)[|y|..] == t;
  }

  lemma NumberEnds(x: string, y: string, s: string, t: string)
    requires NumberText(x) && NumberText(y) && Stops(s) && Stops(t) && x + s == y + t
    ensures x == y && s == t
  {
    if |x| < |y| {
      NextChar(x, y, s, t);
    } else if |y| < |x| {
      NextChar(y, x, t, s);
    } else {
      SplitAt(x, y, s, t);
    }
  }

  lemma EscapeEnds(lib: Library, c: char, d: char, s: string, t: string)
    requires EscapesWell(lib) && lib.escape(c) + s == lib.escape(d) + t
    ensures c == d && s == t
  {
    var x, y := lib.escape(c), lib.escape(d);
    assert |x| <= |y| ==> x <= y by {
      assert (x + s)[..|x|] == x;
      if |x| <= |y| {
        assert (y + t)[..|x|] == y[..|x|];
      }
    }
    assert |y| <= |x| ==> y <= x by {
      assert (y + t)[..|y|] == y;
      if |y| <= |x| {
        assert (x + s)[..|y|] == x[..|y|];
      }
    }
    SplitAt(x, y, s, t);
  }

  lemma EscapedHead(lib: Library, x: string, s: string)
    requires EscapesWell(lib)
    ensures (Escaped(lib, x) + ['"'] + s)[0] == '"' <==> x == []
  {
    if x != [] {
      assert (Escaped(lib, x) + ['"'] + s)[0] == lib.escape(x[0])[0];
    }
  }

  /** A closing quote ends one string only. */
  lemma {:induction false} EscapedEnds(lib: Library, x: string, y: string, s: string, t: string)
    requires EscapesWell(lib) && Escaped(lib, x) + ['"'] + s == Escaped(lib, y) + ['"'] + t
    ensures x == y && s == t
  {
    EscapedHead(lib, x, s);
    EscapedHead(lib, y, t);
    if x == [] {
      assert Escaped(lib, x) + ['"'] + s == ['"'] + s && Escaped(lib, y) + ['"'] + t == ['"'] + t;
      SplitAt(['"'], ['"'], s, t);
    } else {
      var u, v := Escaped(lib, x[1..]) + ['"'] + s, Escaped(lib, y[1..]) + ['"'] + t;
      assert Escaped(lib, x) + ['"'] + s == lib.escape(x[0]) + u;
      assert Escaped(lib, y) + ['"'] + t == lib.escape(y[0]) + v;
      EscapeEnds(lib, x[0], y[0], u, v);
      EscapedEnds(lib, x[1..], y[1..], s, t);
    }
  }

  lemma QuotedEnds(lib: Library, x: string, y: string, s: string, t: string)
    requires EscapesWell(lib) && Quoted(lib, x) + s == Quoted(lib, y) + t
    ensures x == y && s == t
  {
    var u, v := Escaped(lib, x) + ['"'] + s, Escaped(lib, y) + ['"'] + t;
    assert Quoted(lib, x) + s == ['"'] + u && Quoted(lib, y) + t == ['"'] + v;
    SplitAt(['"'], ['"'], u, v);
    EscapedEnds(lib, x, y, s, t);
  }

  /** Which kind of value a text starting with `c` is. */
  function KindOf(c: char): nat {
    if c == 'n' then 0 else if c == 't' || c == 'f' then 1 else if c in "0123456789-" then 2
    else if c == '"' then 3 else if c == '[' then 4 else if c == '{' then 5 else 6
  }

  function Kind(v: Json): (k: nat)
    ensures k <= 5
  {
    match v
    case JNull => 0
    case JBool(_) => 1
    case JNumber(_) => 2
    case JString(_) => 3
    case JArray(_) => 4
    case JObject(_) => 5
  }

  lemma NumberKind(s: string)
    requires NumberText(s)
    ensures KindOf(s[0]) == 2
  {
  }

  lemma TextStarts(lib: Library, v: Json)
    requires FormatsWell(lib) && RoundsWell(lib) && Valid(lib, v)
    ensures Text(lib, v) != [] && KindOf(Text(lib, v)[0]) == Kind(v)
  {
    hide FormatsWell, RoundsWell, Sane;
    if v.JNumber? {
      NumberTextIs(lib, v.n);
      NumberKind(NumberToText(lib, v.n));
    }
  }

  ghost predicate Faithful(lib: Library) {
    FormatsWell(lib) && RoundsWell(lib) && EscapesWell(lib)
  }

  lemma {:induction false} DigitsOnly(n: nat, k: nat)
    requires k < |Digits(n)|
    ensures '0' <= Digits(n)[k] <= '9'
  {
    if n >= 10 && k < |Digits(n / 10)| {
      DigitsOnly(n / 10, k);
    }
  }

  lemma NoPointInDecimal(i: int)
    ensures Decimal(i) != "0.5"
  {
    if i < 0 {
      assert Decimal(i)[0] == '-';
    } else if |Digits(i)| == 3 {
      DigitsOnly(i, 1);
      assert "0.5"[1] == '.';
    }
  }

  /** The assumptions about the library can be met, by one with a float that is no integer. */
  lemma SomeLibraryIsFaithful() returns (lib: Library)
    ensures Faithful(lib) && Formatted(lib, 0.5)
  {
    lib := Library(f => SmallInteger(f) || f == 0.5, x => if SmallInteger(x) || x == 0.5 then Some(x) else None,
                   f => "0.5", c => ['\\', c]);
    forall i: int ensures Decimal(i) != "0.5" {
      NoPointInDecimal(i);
    }
    forall i: int | -EXACT_LIMIT < i < EXACT_LIMIT ensures Exact(lib, i) {
    }
    forall c, d | c != d ensures !(lib.escape(c) <= lib.escape(d)) {
      assert lib.escape(c)[1] != lib.escape(d)[1];
    }
    var half: real := 0.5;
    assert half.Floor == 0;
  }

  ghost predicate ItemsValid(lib: Library, items: seq<Json>) {
    forall i :: 0 <= i < |items| ==> Valid(lib, items[i])
  }

  ghost predicate ItemsSame(lib: Library, xs: seq<Json>, ys: seq<Json>) {
    |xs| == |ys| && forall i :: 0 <= i < |xs| ==> Same(lib, xs[i], ys[i])
  }

  ghost predicate MembersValid(lib: Library, ms: seq<Member>) {
    forall i :: 0 <= i < |ms| ==> Valid(lib, ms[i].value)
  }

  ghost predicate MembersSame(lib: Library, ms: seq<Member>, ns: seq<Member>) {
    |ms| == |ns| && forall i :: 0 <= i < |ms| ==> ms[i].key == ns[i].key && Same(lib, ms[i].value, ns[i].value)
  }

  /** What is left after an item stops numbers. */
  lemma ItemsStop(lib: Library, items: seq<Json>, s: string)
    ensures Stops(ItemsText(lib, items, false) + s)
  {
    assert (ItemsText(lib, items, false) + s)[0] == if items == [] then ']' else ',';
  }

  lemma MembersStop(lib: Library, ms: seq<Member>, s: string)
    ensures Stops(MembersText(lib, ms, false) + s)
  {
    assert (MembersText(lib, ms, false) + s)[0] == if ms == [] then '}' else ',';
  }

  lemma SameKind(lib: Library, a: Json, b: Json, s: string, t: string)
    requires Faithful(lib) && Valid(lib, a) && Valid(lib, b) && Text(lib, a) + s == Text(lib, b) + t
    ensures Kind(a) == Kind(b)
  {
    hide RoundsWell, EscapesWell, FormatsWell, Text, KindOf;
    TextStarts(lib, a);
    TextStarts(lib, b);
    assert (Text(lib, a) + s)[0] == Text(lib, a)[0] && (Text(lib, b) + t)[0] == Text(lib, b)[0];
  }

  lemma ParseScalar(lib: Library, a: Json, b: Json, s: string, t: string)
    requires Faithful(lib) && Valid(lib, a) && Valid(lib, b) && Stops(s) && Stops(t)
    requires Text(lib, a) + s == Text(lib, b) + t && Kind(a) == Kind(b) <= 3
    ensures Same(lib, a, b) && s == t
  {
    hide FormatsWell, RoundsWell, EscapesWell, NumberText, Quoted, NumberToText;
    match a {
      case JNull =>
        SplitAt("null", "null", s, t);
      case JBool(x) =>
        assert (Text(lib, a) + s)[0] == (if x then 't' else 'f');
        assert (Text(lib, b) + t)[0] == (if b.b then 't' else 'f');
        SplitAt(Text(lib, a), Text(lib, b), s, t);
      case JNumber(m) =>
        NumberTextIs(lib, m);
        NumberTextIs(lib, b.n);
        NumberEnds(NumberToText(lib, m), NumberToText(lib, b.n), s, t);
        NumbersUnambiguous(lib, m, b.n);
      case JString(x) =>
        QuotedEnds(lib, x, b.s, s, t);
      case _ =>
    }
  }

  lemma OpenArray(lib: Library, xs: seq<Json>, s: string)
    ensures Text(lib, JArray(xs)) + s == ['['] + (ItemsText(lib, xs, true) + s)
  {
  }

  lemma OpenObject(lib: Library, ms: seq<Member>, s: string)
    ensures Text(lib, JObject(ms)) + s == ['{'] + (MembersText(lib, SortMembers(ms), true) + s)
  {
  }

  /** Text followed by something that stops numbers is one value's only. */
  lemma {:induction false} ParseValue(lib: Library, a: Json, b: Json, s: string, t: string)
    requires Faithful(lib) && Valid(lib, a) && Valid(lib, b) && Stops(s) && Stops(t)
    requires Text(lib, a) + s == Text(lib, b) + t
    ensures Same(lib, a, b) && s == t
    decreases Size(a), 0
  {
    hide FormatsWell, RoundsWell, EscapesWell, SortMembers, Text, ItemsText, MembersText, Stops;
    SameKind(lib, a, b, s, t);
    if a.JArray? {
      OpenArray(lib, a.items, s);
      OpenArray(lib, b.items, t);
      SplitAt(['['], ['['], ItemsText(lib, a.items, true) + s, ItemsText(lib, b.items, true) + t);
      ParseItems(lib, a.items, b.items, true, s, t);
    } else if a.JObject? {
      var sm, sn := SortMembers(a.members), SortMembers(b.members);
      OpenObject(lib, a.members, s);
      OpenObject(lib, b.members, t);
      SplitAt(['{'], ['{'], MembersText(lib, sm, true) + s, MembersText(lib, sn, true) + t);
      SortedValid(lib, a.members);
      SortedValid(lib, b.members);
      ParseMembers(lib, sm, sn, true, s, t);
      SortedSame(lib, a.members, b.members);
    } else {
      ParseScalar(lib, a, b, s, t);
    }
  }

  lemma ItemsUnfold(lib: Library, xs: seq<Json>, first: bool, s: string)
    requires xs != []
    ensures ItemsText(lib, xs, first) + s == Comma(first) + (Text(lib, xs[0]) + (ItemsText(lib, xs[1..], false) + s))
  {
    hide Text;
  }

  lemma MembersUnfold(lib: Library, ms: seq<Member>, first: bool, s: string)
    requires ms != []
    ensures MembersText(lib, ms, first) + s == Comma(first)
      + (Quoted(lib, ms[0].key) + ([':'] + (Text(lib, ms[0].value) + (MembersText(lib, ms[1..], false) + s))))
  {
    hide Text, Quoted;
  }

  lemma NoItems(lib: Library, xs: seq<Json>, first: bool, s: string)
    requires xs == []
    ensures ItemsText(lib, xs, first) + s == [']'] + s
  {
  }

  lemma NoMembers(lib: Library, ms: seq<Member>, first: bool, s: string)
    requires ms == []
    ensures MembersText(lib, ms, first) + s == ['}'] + s
  {
  }

  lemma {:induction false} ParseItems(lib: Library, xs: seq<Json>, ys: seq<Json>, first: bool, s: string, t: string)
    requires Faithful(lib) && ItemsValid(lib, xs) && ItemsValid(lib, ys)
    requires ItemsText(lib, xs, first) + s == ItemsText(lib, ys, first) + t
    ensures ItemsSame(lib, xs, ys) && s == t
    decreases SizeItems(xs), 1
  {
    hide FormatsWell, RoundsWell, EscapesWell, Text, ItemsText, Comma;
    ItemsStart(lib, xs, first, s);
    ItemsStart(lib, ys, first, t);
    if xs == [] {
      NoItems(lib, xs, first, s);
      NoItems(lib, ys, first, t);
      SplitAt([']'], [']'], s, t);
    } else {
      var c := Comma(first);
      var p, q := ItemsText(lib, xs[1..], false) + s, ItemsText(lib, ys[1..], false) + t;
      ItemsUnfold(lib, xs, first, s);
      ItemsUnfold(lib, ys, first, t);
      SplitAt(c, c, Text(lib, xs[0]) + p, Text(lib, ys[0]) + q);
      ItemsStop(lib, xs[1..], s);
      ItemsStop(lib, ys[1..], t);
      ParseValue(lib, xs[0], ys[0], p, q);
      ParseItems(lib, xs[1..], ys[1..], false, s, t);
      assert xs == [xs[0]] + xs[1..] && ys == [ys[0]] + ys[1..];
    }
  }

  /** An item list's text tells at once whether it is empty. */
  lemma ItemsStart(lib: Library, xs: seq<Json>, first: bool, s: string)
    requires Faithful(lib) && ItemsValid(lib, xs)
    ensures (ItemsText(lib, xs, first) + s)[0] == ']' <==> xs == []
  {
    hide FormatsWell, RoundsWell, EscapesWell, Text;
    if xs != [] {
      TextStarts(lib, xs[0]);
      assert (ItemsText(lib, xs, first) + s)[0] == if first then Text(lib, xs[0])[0] else ',';
    }
  }

  lemma {:induction false} ParseMembers(lib: Library, ms: seq<Member>, ns: seq<Member>, first: bool, s: string,
                                        t: string)
    requires Faithful(lib) && MembersValid(lib, ms) && MembersValid(lib, ns)
    requires MembersText(lib, ms, first) + s == MembersText(lib, ns, first) + t
    ensures MembersSame(lib, ms, ns) && s == t
    decreases SizeMembers(ms), 1
  {
    hide FormatsWell, RoundsWell, EscapesWell, Text, MembersText, Comma, Quoted;
    MembersStart(lib, ms, first, s);
    MembersStart(lib, ns, first, t);
    if ms == [] {
      NoMembers(lib, ms, first, s);
      NoMembers(lib, ns, first, t);
      SplitAt(['}'], ['}'], s, t);
    } else {
      var c := Comma(first);
      var p, q := MembersText(lib, ms[1..], false) + s, MembersText(lib, ns[1..], false) + t;
      var u, v := Text(lib, ms[0].value) + p, Text(lib, ns[0].value) + q;
      var x, y := Quoted(lib, ms[0].key) + ([':'] + u), Quoted(lib, ns[0].key) + ([':'] + v);
      MembersUnfold(lib, ms, first, s);
      MembersUnfold(lib, ns, first, t);
      SplitAt(c, c, x, y);
      QuotedEnds(lib, ms[0].key, ns[0].key, [':'] + u, [':'] + v);
      SplitAt([':'], [':'], u, v);
      MembersStop(lib, ms[1..], s);
      MembersStop(lib, ns[1..], t);
      ParseValue(lib, ms[0].value, ns[0].value, p, q);
      ParseMembers(lib, ms[1..], ns[1..], false, s, t);
      assert ms == [ms[0]] + ms[1..] && ns == [ns[0]] + ns[1..];
    }
  }

  lemma MembersStart(lib: Library, ms: seq<Member>, first: bool, s: string)
    ensures (MembersText(lib, ms, first) + s)[0] == '}' <==> ms == []
  {
    if ms != [] {
      assert (MembersText(lib, ms, first) + s)[0] == if first then '"' else ',';
    }
  }

  // --- Sorted members ---------------------------------------------------------------------------

  ghost predicate Ascends(ms: seq<Member>) {
    forall i, j :: 0 <= i < j < |ms| ==> Before(ms[i].key, ms[j].key)
  }

  lemma {:induction false} PutIs(m: Member, ms: seq<Member>)
    requires Ascends(ms) && forall i :: 0 <= i < |ms| ==> ms[i].key != m.key
    ensures Ascends(PutMember(m, ms))
    ensures forall x :: x in PutMember(m, ms) <==> x == m || x in ms
  {
    if ms != [] {
      BeforeTotal(ms[0].key, m.key);
      var rest := ms[1..];
      assert ms == [ms[0]] + rest;
      if Before(ms[0].key, m.key) {
        PutIs(m, rest);
        var r := PutMember(m, rest);
        forall j | 0 <= j < |r| ensures Before(ms[0].key, r[j].key) {
          assert r[j] in r;
        }
      } else {
        forall j | 0 <= j < |ms| ensures Before(m.key, ms[j].key) {
          if j > 0 {
            BeforeTransitive(m.key, ms[0].key, ms[j].key);
          }
        }
      }
    }
  }

  lemma {:induction false} SortedIs(ms: seq<Member>)
    requires Distinct(ms)
    ensures Ascends(SortMembers(ms)) && forall x :: x in SortMembers(ms) <==> x in ms
  {
    if ms != [] {
      var rest := ms[1..];
      assert ms == [ms[0]] + rest;
      SortedIs(rest);
      forall i | 0 <= i < |SortMembers(rest)| ensures SortMembers(rest)[i].key != ms[0].key {
        var x := SortMembers(rest)[i];
        assert x in SortMembers(rest);
        var j :| 0 <= j < |rest| && rest[j] == x;
        assert ms[j + 1] == x;
      }
      PutIs(ms[0], SortMembers(rest));
    }
  }

  lemma SortedValid(lib: Library, ms: seq<Member>)
    requires Distinct(ms) && MembersValid(lib, ms)
    ensures MembersValid(lib, SortMembers(ms))
  {
    SortedIs(ms);
    var r := SortMembers(ms);
    forall i | 0 <= i < |r| ensures Valid(lib, r[i].value) {
      assert r[i] in r;
    }
  }

  lemma PlaceOf(ms: seq<Member>, i: nat) returns (p: nat)
    requires Distinct(ms) && i < |ms|
    ensures p < |SortMembers(ms)| && SortMembers(ms)[p] == ms[i]
  {
    SortedIs(ms);
    assert ms[i] in ms;
    p :| 0 <= p < |SortMembers(ms)| && SortMembers(ms)[p] == ms[i];
  }

  lemma OrderedKeys(ms: seq<Member>, p: nat, q: nat)
    requires Ascends(ms) && p < |ms| && q < |ms| && ms[p].key == ms[q].key
    ensures p == q
  {
    BeforeTotal(ms[p].key, ms[q].key);
  }

  lemma KeyKept(lib: Library, ms: seq<Member>, ns: seq<Member>, i: nat)
    requires Distinct(ms) && Distinct(ns) && MembersSame(lib, SortMembers(ms), SortMembers(ns)) && i < |ms|
    ensures HasKey(ns, ms[i].key)
  {
    SortedIs(ns);
    var p := PlaceOf(ms, i);
    var x := SortMembers(ns)[p];
    assert x in SortMembers(ns);
    var j :| 0 <= j < |ns| && ns[j] == x;
  }

  /** Lists that agree once sorted are one object. */
  lemma SortedSame(lib: Library, ms: seq<Member>, ns: seq<Member>)
    requires Distinct(ms) && Distinct(ns) && MembersSame(lib, SortMembers(ms), SortMembers(ns))
    ensures Same(lib, JObject(ms), JObject(ns))
  {
    hide SortMembers;
    forall i | 0 <= i < |ms| ensures HasKey(ns, ms[i].key) {
      KeyKept(lib, ms, ns, i);
    }
    forall j | 0 <= j < |ns| ensures HasKey(ms, ns[j].key) {
      SortedIs(ms);
      var q := PlaceOf(ns, j);
      var x := SortMembers(ms)[q];
      assert x in SortMembers(ms);
      var i :| 0 <= i < |ms| && ms[i] == x;
    }
    forall i, j | 0 <= i < |ms| && 0 <= j < |ns| && ms[i].key == ns[j].key
      ensures Same(lib, ms[i].value, ns[j].value)
    {
      var p := PlaceOf(ms, i);
      var q := PlaceOf(ns, j);
      SortedIs(ns);
      OrderedKeys(SortMembers(ns), p, q);
    }
  }

  // --- One value, one text -----------------------------------------------------------------------

  ghost predicate KeysWithin(ms: seq<Member>, ns: seq<Member>) {
    forall i :: 0 <= i < |ms| ==> HasKey(ns, ms[i].key)
  }

  lemma SameKeys(lib: Library, ms: seq<Member>, ns: seq<Member>)
    requires Distinct(ms) && Distinct(ns) && Same(lib, JObject(ms), JObject(ns))
    ensures KeysWithin(SortMembers(ms), SortMembers(ns))
  {
    hide SortMembers;
    SortedIs(ms);
    forall p | 0 <= p < |SortMembers(ms)| ensures HasKey(SortMembers(ns), SortMembers(ms)[p].key) {
      var x := SortMembers(ms)[p];
      assert x in SortMembers(ms);
      var i :| 0 <= i < |ms| && ms[i] == x;
      assert HasKey(ns, ms[i].key);
      var j :| 0 <= j < |ns| && ns[j].key == ms[i].key;
      var q := PlaceOf(ns, j);
    }
  }

  lemma NoKeys(ms: seq<Member>)
    requires KeysWithin(ms, [])
    ensures ms == []
  {
    assert forall k :: !HasKey([], k);
    assert |ms| > 0 ==> HasKey([], ms[0].key);
  }

  /** Two ascending lists with the same keys have them in the same places. */
  lemma {:induction false} KeysInPlace(ms: seq<Member>, ns: seq<Member>)
    requires Ascends(ms) && Ascends(ns) && KeysWithin(ms, ns) && KeysWithin(ns, ms)
    ensures |ms| == |ns| && forall i :: 0 <= i < |ms| ==> ms[i].key == ns[i].key
  {
    hide Before, KeysWithin;
    if ns == [] {
      NoKeys(ms);
    } else if ms == [] {
      NoKeys(ns);
    } else {
      FirstKey(ms, ns);
      FirstKey(ns, ms);
      BeforeTotal(ms[0].key, ns[0].key);
      RestHasKeys(ms, ns);
      RestHasKeys(ns, ms);
      KeysInPlace(ms[1..], ns[1..]);
      assert ms == [ms[0]] + ms[1..] && ns == [ns[0]] + ns[1..];
    }
  }

  lemma FirstKey(ms: seq<Member>, ns: seq<Member>)
    requires Ascends(ns) && ms != [] && ns != [] && KeysWithin(ms, ns)
    ensures ns[0].key == ms[0].key || Before(ns[0].key, ms[0].key)
  {
    hide Before;
    assert HasKey(ns, ms[0].key);
    var i :| 0 <= i < |ns| && ns[i].key == ms[0].key;
  }

  lemma RestHasKeys(ms: seq<Member>, ns: seq<Member>)
    requires Ascends(ms) && Ascends(ns) && ms != [] && ns != [] && ms[0].key == ns[0].key && KeysWithin(ms, ns)
    ensures Ascends(ms[1..]) && KeysWithin(ms[1..], ns[1..])
  {
    hide Before;
    forall i | 0 <= i < |ms[1..]| ensures HasKey(ns[1..], ms[1..][i].key) {
      var k := ms[i + 1].key;
      assert HasKey(ns, k);
      var j :| 0 <= j < |ns| && ns[j].key == k;
      assert Before(ms[0].key, k);
      BeforeTotal(ms[0].key, k);
      BeforeTotal(k, k);
      assert ns[1..][j - 1].key == k;
    }
  }

  lemma SortedTogether(lib: Library, ms: seq<Member>, ns: seq<Member>)
    requires Distinct(ms) && Distinct(ns) && Same(lib, JObject(ms), JObject(ns)) && Same(lib, JObject(ns), JObject(ms))
    ensures MembersSame(lib, SortMembers(ms), SortMembers(ns))
  {
    hide SortMembers;
    SortedIs(ms);
    SortedIs(ns);
    SameKeys(lib, ms, ns);
    SameKeys(lib, ns, ms);
    var sm, sn := SortMembers(ms), SortMembers(ns);
    KeysInPlace(sm, sn);
    forall p | 0 <= p < |sm| ensures Same(lib, sm[p].value, sn[p].value) {
      var x, y := sm[p], sn[p];
      assert x in sm && y in sn;
      var i :| 0 <= i < |ms| && ms[i] == x;
      var j :| 0 <= j < |ns| && ns[j] == y;
      assert ms[i].key == ns[j].key;
    }
  }

  lemma {:induction false} SameSymmetric(lib: Library, a: Json, b: Json)
    requires Same(lib, a, b)
    ensures Same(lib, b, a)
    decreases a
  {
    match a {
      case JArray(xs) =>
        forall i | 0 <= i < |xs| ensures Same(lib, b.items[i], xs[i]) {
          SameSymmetric(lib, xs[i], b.items[i]);
        }
      case JObject(ms) =>
        var ns := b.members;
        forall j, i | 0 <= j < |ns| && 0 <= i < |ms| && ns[j].key == ms[i].key
          ensures Same(lib, ns[j].value, ms[i].value) {
          SameSymmetric(lib, ms[i].value, ns[j].value);
        }
      case _ =>
    }
  }

  lemma {:induction false} SameText(lib: Library, a: Json, b: Json)
    requires Valid(lib, a) && Valid(lib, b) && Same(lib, a, b)
    ensures Text(lib, a) == Text(lib, b)
    decreases Size(a), 0
  {
    hide SortMembers, Sane, Reduce;
    match a {
      case JArray(xs) =>
        SameItemsText(lib, xs, b.items, true);
      case JObject(ms) =>
        SameSymmetric(lib, a, b);
        SortedTogether(lib, ms, b.members);
        SortedValid(lib, ms);
        SortedValid(lib, b.members);
        SameMembersText(lib, SortMembers(ms), SortMembers(b.members), true);
      case _ =>
    }
  }

  lemma {:induction false} SameItemsText(lib: Library, xs: seq<Json>, ys: seq<Json>, first: bool)
    requires ItemsValid(lib, xs) && ItemsValid(lib, ys) && ItemsSame(lib, xs, ys)
    ensures ItemsText(lib, xs, first) == ItemsText(lib, ys, first)
    decreases SizeItems(xs), 1
  {
    hide Text, Same, Valid;
    if xs != [] {
      SameText(lib, xs[0], ys[0]);
      SameItemsText(lib, xs[1..], ys[1..], false);
    }
  }

  lemma {:induction false} SameMembersText(lib: Library, ms: seq<Member>, ns: seq<Member>, first: bool)
    requires MembersValid(lib, ms) && MembersValid(lib, ns) && MembersSame(lib, ms, ns)
    ensures MembersText(lib, ms, first) == MembersText(lib, ns, first)
    decreases SizeMembers(ms), 1
  {
    hide Text, Same, Valid;
    if ms != [] {
      SameText(lib, ms[0].value, ns[0].value);
      SameMembersText(lib, ms[1..], ns[1..], false);
    }
  }

  /** Canonical text tells values apart exactly up to the order of object members and the
      spelling of numbers. */
  lemma TextIsCanonical(lib: Library, a: Json, b: Json)
    requires Faithful(lib) && Valid(lib, a) && Valid(lib, b)
    ensures Text(lib, a) == Text(lib, b) <==> Same(lib, a, b)
  {
    hide Faithful, Valid, Same, Text;
    if Text(lib, a) == Text(lib, b) {
      assert Text(lib, a) + [] == Text(lib, b) + [];
      ParseValue(lib, a, b, [], []);
    }
    if Same(lib, a, b) {
      SameText(lib, a, b);
    }
  }

  lemma {:induction false} SameReflexive(lib: Library, a: Json)
    requires Valid(lib, a)
    ensures Same(lib, a, a)
    decreases a
  {
    match a {
      case JArray(xs) =>
        forall i | 0 <= i < |xs| ensures Same(lib, xs[i], xs[i]) {
          SameReflexive(lib, xs[i]);
        }
      case JObject(ms) =>
        forall i, j | 0 <= i < |ms| && 0 <= j < |ms| && ms[i].key == ms[j].key
          ensures Same(lib, ms[i].value, ms[j].value) {
          assert i == j;
          SameReflexive(lib, ms[i].value);
        }
      case _ =>
    }
  }

  /** Reordering an object's members does not change its text. */
  lemma ReorderingKeepsText(lib: Library, ms: seq<Member>, ns: seq<Member>)
    requires Valid(lib, JObject(ms)) && Valid(lib, JObject(ns)) && forall m :: m in ms <==> m in ns
    ensures Text(lib, JObject(ms)) == Text(lib, JObject(ns))
  {
    forall i | 0 <= i < |ms| ensures HasKey(ns, ms[i].key) {
      assert ms[i] in ns;
    }
    forall j | 0 <= j < |ns| ensures HasKey(ms, ns[j].key) {
      assert ns[j] in ms;
    }
    forall i, j | 0 <= i < |ms| && 0 <= j < |ns| && ms[i].key == ns[j].key ensures Same(lib, ms[i].value, ns[j].value) {
      var x := ms[i];
      assert x in ns;
      var k :| 0 <= k < |ns| && ns[k] == x;
      assert k == j;
      SameReflexive(lib, x.value);
    }
    hide Text, SortMembers;
    SameText(lib, JObject(ms), JObject(ns));
  }

  // --- Writing it ---------------------------------------------------------------------------------

  class Buffer {
    var text: string

    constructor ()
      ensures text == []
    {
      text := [];
    }

    method WriteString(s: string)
      modifies this
      ensures text == old(text) + s
    {
      text := text + s;
    }
  }

  /** A 64-bit integer as it stands; else the nearest float, as an integer when it is a
      small one; else the number as spelled. */
  method CanonicalNumber(lib: Library, n: Number) returns (s: string)
    ensures s == NumberToText(lib, n)
  {
    if n.plain && -INT64_LIMIT <= n.mantissa < INT64_LIMIT {
      return Decimal(n.mantissa);
    }
    var f := lib.round(ValueOf(n));
    if f.Some? {
      if SmallInteger(f.value) {
        return Decimal(f.value.Floor);
      }
      return lib.format(f.value);
    }
    s := n.text;
  }

  method Quote(lib: Library, s: string) returns (r: string)
    ensures r == Quoted(lib, s)
  {
    r := ['"'];
    assert s[0..] == s;
    for i := 0 to |s|
      invariant r + Escaped(lib, s[i..]) + ['"'] == Quoted(lib, s)
    {
      assert s[i..][1..] == s[i + 1..];
      assert (r + lib.escape(s[i])) + Escaped(lib, s[i + 1..]) == r + Escaped(lib, s[i..]);
      r := r + lib.escape(s[i]);
    }
    assert r + [] == r;
    r := r + ['"'];
  }

  /** Appends the canonical text of `v`. */
  method WriteCanonical(lib: Library, b: Buffer, v: Json)
    modifies b
    ensures b.text == old(b.text) + Text(lib, v)
    decreases Size(v), 0
  {
    hide SortMembers, NumberToText, Quoted, ItemsText, MembersText, Size, SizeItems, SizeMembers;
    Parts(v);
    match v {
      case JNull =>
        b.WriteString("null");
      case JBool(x) =>
        b.WriteString(if x then "true" else "false");
      case JNumber(n) =>
        var s := CanonicalNumber(lib, n);
        b.WriteString(s);
      case JString(x) =>
        var q := Quote(lib, x);
        b.WriteString(q);
      case JArray(items) =>
        b.WriteString("[");
        WriteItems(lib, b, items);
      case JObject(ms) =>
        var sorted := SortMembers(ms);
        b.WriteString("{");
        WriteMembers(lib, b, sorted);
    }
  }

  lemma Parts(v: Json)
    ensures v.JArray? ==> SizeItems(v.items) < Size(v)
    ensures v.JObject? ==> SizeMembers(SortMembers(v.members)) < Size(v)
  {
  }

  method WriteItems(lib: Library, b: Buffer, items: seq<Json>)
    modifies b
    ensures b.text == old(b.text) + ItemsText(lib, items, true)
    decreases SizeItems(items), 1
  {
    hide Text;
    assert items[0..] == items;
    for i := 0 to |items|
      invariant b.text + ItemsText(lib, items[i..], i == 0) == old(b.text) + ItemsText(lib, items, true)
    {
      ghost var before := b.text;
      assert items[i..][1..] == items[i + 1..];
      if i > 0 {
        b.WriteString(",");
      }
      ItemSize(items, i);
      WriteCanonical(lib, b, items[i]);
      assert b.text == before + Comma(i == 0) + Text(lib, items[i]);
      assert b.text + ItemsText(lib, items[i + 1..], false) == before + ItemsText(lib, items[i..], i == 0);
    }
    b.WriteString("]");
  }

  method WriteMembers(lib: Library, b: Buffer, ms: seq<Member>)
    modifies b
    ensures b.text == old(b.text) + MembersText(lib, ms, true)
    decreases SizeMembers(ms), 1
  {
    hide Text, Quoted, MembersText, Comma;
    assert ms[0..] == ms;
    for i := 0 to |ms|
      invariant b.text + MembersText(lib, ms[i..], i == 0) == old(b.text) + MembersText(lib, ms, true)
    {
      ghost var before := b.text;
      MembersNext(lib, ms, i, before);
      MemberSize(ms, i);
      WriteMember(lib, b, ms[i], i == 0);
    }
    MembersEnd(lib, ms);
    b.WriteString("}");
  }

  method WriteMember(lib: Library, b: Buffer, m: Member, first: bool)
    modifies b
    ensures b.text == old(b.text) + (Comma(first) + Quoted(lib, m.key) + [':'] + Text(lib, m.value))
    decreases Size(m.value), 1
  {
    hide Text, Quoted;
    if !first {
      b.WriteString(",");
    }
    var q := Quote(lib, m.key);
    b.WriteString(q);
    b.WriteString(":");
    WriteCanonical(lib, b, m.value);
  }

  lemma MembersNext(lib: Library, ms: seq<Member>, i: nat, before: string)
    requires i < |ms|
    ensures before + MembersText(lib, ms[i..], i == 0)
         == before + (Comma(i == 0) + Quoted(lib, ms[i].key) + [':'] + Text(lib, ms[i].value))
            + MembersText(lib, ms[i + 1..], false)
  {
    hide Text, Quoted, Comma;
    assert ms[i..][1..] == ms[i + 1..];
  }

  lemma MembersEnd(lib: Library, ms: seq<Member>)
    ensures MembersText(lib, ms[|ms|..], |ms| == 0) == ['}']
  {
  }

  lemma {:induction false} ItemSize(items: seq<Json>, i: nat)
    requires i < |items|
    ensures Size(items[i]) < SizeItems(items)
  {
    if i > 0 {
      ItemSize(items[1..], i - 1);
    }
  }

  lemma {:induction false} MemberSize(ms: seq<Member>, i: nat)
    requires i < |ms|
    ensures Size(ms[i].value) < SizeMembers(ms)
  {
    if i > 0 {
      MemberSize(ms[1..], i - 1);
    }
  }
}
