/**
  The order in which parameters are sorted by name, the search for duplicates in the sorted list, and
  the single pass that carries parameter values over to tunable parameters.
*/
module Parameters {

  /** The codes of the characters of a name, without the final zero. */
  type Name = seq<int>

  const ZERO := 48
  const ULONG_MAX := 0xFFFF_FFFF_FFFF_FFFF
  const INT_SPAN := 0x1_0000_0000
  const INT_HALF := 0x8000_0000

  predicate IsDigit(c: int) {
    ZERO <= c <= ZERO + 9
  }

  // ---------------------------------------------------------------------------------------------
  // Names as lists of characters and numbers

  datatype Token = Ch(code: int) | Num(value: nat)

  /** The length of the digits at the front. */
  function DigitRun(s: Name): (k: nat)
    ensures k <= |s| && (forall i :: 0 <= i < k ==> IsDigit(s[i])) && (k < |s| ==> !IsDigit(s[k]))
  {
    if s == [] || !IsDigit(s[0]) then 0 else 1 + DigitRun(s[1..])
  }

  /** One more digit; a number that might not fit becomes the largest one. */
  function AddDigit(value: nat, c: int): nat
    requires IsDigit(c)
  {
    if value < ULONG_MAX / 10 - 10 then value * 10 + c - ZERO else ULONG_MAX
  }

  function NumberOf(digits: Name): nat
    requires forall i :: 0 <= i < |digits| ==> IsDigit(digits[i])
  {
    if digits == [] then 0 else AddDigit(NumberOf(digits[..|digits| - 1]), digits[|digits| - 1])
  }

  function Tokens(s: Name): seq<Token>
    decreases |s|
  {
    if s == [] then []
    else if IsDigit(s[0]) then
      var k := DigitRun(s);
      [Num(NumberOf(s[..k]))] + Tokens(s[k..])
    else [Ch(s[0])] + Tokens(s[1..])
  }

  /** The difference of two numbers cut down to 32 bits. */
  function CutDifference(x: nat, y: nat): int {
    var d := (x - y) % INT_SPAN;
    if d < INT_HALF then d else d - INT_SPAN
  }

  /** The result of the comparison of two names that were taken apart. */
  function Cmp(a: seq<Token>, b: seq<Token>): int {
    if a == [] then if b == [] then 0 else -1
    else if b == [] then 1
    else
      match (a[0], b[0])
      case (Num(x), Num(y)) => if x != y then CutDifference(x, y) else Cmp(a[1..], b[1..])
      case (Num(_), Ch(_)) => -1
      case (Ch(_), Num(_)) => 1
      case (Ch(c), Ch(d)) => if c != d then c - d else Cmp(a[1..], b[1..])
  }

  function NameCmp(l: Name, r: Name): int {
    Cmp(Tokens(l), Tokens(r))
  }

  /** Reads the number at the front of a name. */
  method ReadNumber(s: Name, from: nat) returns (to: nat, value: nat)
    requires from < |s| && IsDigit(s[from])
    ensures from < to <= |s|
    ensures Tokens(s[from..]) == [Num(value)] + Tokens(s[to..])
  {
    hide Tokens, AddDigit;
    to, value := from, 0;
    while to < |s| && IsDigit(s[to])
      invariant from <= to <= |s|
      invariant forall i :: from <= i < to ==> IsDigit(s[i])
      invariant value == NumberOf(s[from..to])
    {
      assert s[from..to + 1][..to - from] == s[from..to];
      value := AddDigit(value, s[to]);
      to := to + 1;
    }
    NumberToken(s, from, to);
  }

  lemma NumberToken(s: Name, from: nat, to: nat)
    requires from < to <= |s| && (forall i :: from <= i < to ==> IsDigit(s[i])) && (to < |s| ==> !IsDigit(s[to]))
    ensures Tokens(s[from..]) == [Num(NumberOf(s[from..to]))] + Tokens(s[to..])
  {
    hide NumberOf;
    RunIs(s[from..], to - from);
    assert s[from..][..to - from] == s[from..to] && s[from..][to - from..] == s[to..];
  }

  lemma {:induction false} RunIs(s: Name, k: nat)
    requires k <= |s| && (forall i :: 0 <= i < k ==> IsDigit(s[i])) && (k < |s| ==> !IsDigit(s[k]))
    ensures DigitRun(s) == k
  {
    if k > 0 {
      RunIs(s[1..], k - 1);
    }
  }

  /** `mcx_natural_sort_cmp`: walks both names at once, alternating between characters and numbers. */
  method NaturalSortCmp(l: Name, r: Name) returns (c: int)
    ensures c == NameCmp(l, r)
  {
    hide Tokens, NumberOf;
    var i, j, numberMode := 0, 0, false;
    assert l[0..] == l && r[0..] == r;
    while i < |l| && j < |r|
      invariant i <= |l| && j <= |r|
      invariant NameCmp(l, r) == Cmp(Tokens(l[i..]), Tokens(r[j..]))
      invariant numberMode ==> i < |l| && j < |r| && IsDigit(l[i]) && IsDigit(r[j])
      decreases |l| - i, if numberMode then 0 else 1
    {
      if !numberMode {
        ghost var i0, j0 := i, j;
        while i < |l| && j < |r|
          invariant i0 <= i <= |l| && j <= |r| && !numberMode && (i == i0 ==> j == j0)
          invariant NameCmp(l, r) == Cmp(Tokens(l[i..]), Tokens(r[j..]))
        {
          FirstToken(l, i);
          FirstToken(r, j);
          var lDigit, rDigit := IsDigit(l[i]), IsDigit(r[j]);
          if lDigit && rDigit {
            numberMode := true;
            break;
          }
          if lDigit {
            return -1;
          }
          if rDigit {
            return 1;
          }
          var diff := l[i] - r[j];
          if diff != 0 {
            return diff;
          }
          i, j := i + 1, j + 1;
        }
      } else {
        var i', x := ReadNumber(l, i);
        var j', y := ReadNumber(r, j);
        assert ([Num(x)] + Tokens(l[i'..]))[1..] == Tokens(l[i'..]);
        assert ([Num(y)] + Tokens(r[j'..]))[1..] == Tokens(r[j'..]);
        i, j := i', j';
        if x != y {
          return CutDifference(x, y);
        }
        numberMode := false;
      }
    }
    TokensEmpty(l[i..]);
    TokensEmpty(r[j..]);
    if j < |r| {
      return -1;
    }
    if i < |l| {
      return 1;
    }
    return 0;
  }

  lemma TokensEmpty(s: Name)
    ensures Tokens(s) == [] <==> s == []
  {
  }

  lemma FirstToken(s: Name, i: nat)
    requires i < |s|
    ensures Tokens(s[i..]) != []
    ensures IsDigit(s[i]) ==> Tokens(s[i..])[0].Num?
    ensures !IsDigit(s[i]) ==> Tokens(s[i..])[0] == Ch(s[i]) && Tokens(s[i..])[1..] == Tokens(s[i + 1..])
  {
    assert s[i..][1..] == s[i + 1..];
  }

  // ---------------------------------------------------------------------------------------------
  // What kind of order this is

  // ---------------------------------------------------------------------------------------------
  // The natural order, told by the names themselves

  /** A digit behind the name would not become part of a number in it. */
  predicate EndsInCharacter(p: Name) {
    p == [] || !IsDigit(p[|p| - 1])
  }

  predicate StartsWithCharacter(s: Name) {
    s == [] || !IsDigit(s[0])
  }

  lemma {:induction false} TokensConcat(p: Name, s: Name)
    requires EndsInCharacter(p)
    ensures Tokens(p + s) == Tokens(p) + Tokens(s)
    decreases |p|
  {
    if p == [] {
      assert p + s == s;
    } else if IsDigit(p[0]) {
      var k := DigitRun(p);
      assert p[..k] == (p + s)[..k] && (p + s)[k..] == p[k..] + s;
      RunIs(p + s, k);
      TokensConcat(p[k..], s);
    } else {
      assert (p + s)[1..] == p[1..] + s;
      TokensConcat(p[1..], s);
    }
  }

  lemma {:induction false} CmpDropsFront(a: seq<Token>, x: seq<Token>, y: seq<Token>)
    ensures Cmp(a + x, a + y) == Cmp(x, y)
  {
    if a == [] {
      assert a + x == x && a + y == y;
    } else {
      assert (a + x)[1..] == a[1..] + x && (a + y)[1..] == a[1..] + y;
      CmpDropsFront(a[1..], x, y);
    }
  }

  /** What two names have in common at the front does not matter, up to the last character that is no digit. */
  lemma CommonFrontDrops(p: Name, s: Name, t: Name)
    requires EndsInCharacter(p)
    ensures NameCmp(p + s, p + t) == NameCmp(s, t)
  {
    hide Tokens, Cmp;
    TokensConcat(p, s);
    TokensConcat(p, t);
    CmpDropsFront(Tokens(p), Tokens(s), Tokens(t));
  }

  /** The shorter name comes first, a number before a character, and the smaller character before the larger. */
  lemma FirstCharacterDecides(s: Name, t: Name)
    ensures s == [] && t != [] ==> NameCmp(s, t) < 0 < NameCmp(t, s)
    ensures s != [] && t != [] && IsDigit(s[0]) && !IsDigit(t[0]) ==> NameCmp(s, t) < 0 < NameCmp(t, s)
    ensures s != [] && t != [] && !IsDigit(s[0]) && !IsDigit(t[0]) && s[0] < t[0] ==>
      NameCmp(s, t) < 0 < NameCmp(t, s)
  {
    hide NumberOf;
  }

  /** And numbers come in their order, however many digits they have. */
  lemma NumberDecides(m: nat, n: nat, s: Name, t: Name)
    requires m < n < INT_HALF && StartsWithCharacter(s) && StartsWithCharacter(t)
    ensures NameCmp(Decimal(m) + s, Decimal(n) + t) < 0 < NameCmp(Decimal(n) + t, Decimal(m) + s)
  {
    hide Tokens, Decimal, Cmp;
    NumberInFront(m, s);
    NumberInFront(n, t);
    CmpNumbers(m, n, Tokens(s), Tokens(t));
  }

  lemma CmpNumbers(m: nat, n: nat, a: seq<Token>, b: seq<Token>)
    requires m < n < INT_HALF
    ensures Cmp([Num(m)] + a, [Num(n)] + b) < 0 < Cmp([Num(n)] + b, [Num(m)] + a)
  {
    var x, y := [Num(m)] + a, [Num(n)] + b;
    assert Cmp(x, y) == CutDifference(m, n) && Cmp(y, x) == CutDifference(n, m);
  }

  lemma NumberInFront(n: nat, s: Name)
    requires n < INT_HALF && StartsWithCharacter(s)
    ensures Tokens(Decimal(n) + s) == [Num(n)] + Tokens(s)
  {
    hide Tokens, Decimal;
    DecimalDigits(n);
    var d := Decimal(n);
    var x := d + s;
    assert forall i :: 0 <= i < |d| ==> x[i] == d[i];
    NumberToken(x, 0, |d|);
    assert x[0..] == x && x[0..|d|] == d && x[|d|..] == s;
  }

  ghost predicate Small(a: seq<Token>) {
    forall i :: 0 <= i < |a| && a[i].Num? ==> a[i].value < INT_HALF
  }

  /** The lexicographic order: a prefix first, numbers before characters, each by its value. */
  predicate Less(a: seq<Token>, b: seq<Token>) {
    if a == [] then b != []
    else if b == [] then false
    else if a[0] == b[0] then Less(a[1..], b[1..])
    else TokenLess(a[0], b[0])
  }

  predicate TokenLess(a: Token, b: Token) {
    match (a, b)
    case (Num(x), Num(y)) => x < y
    case (Num(_), Ch(_)) => true
    case (Ch(_), Num(_)) => false
    case (Ch(c), Ch(d)) => c < d
  }

  /** As long as all numbers are below 2^31 the comparison decides the lexicographic order. */
  lemma {:induction false} CmpIsOrder(a: seq<Token>, b: seq<Token>)
    requires Small(a) && Small(b)
    ensures Cmp(a, b) < 0 <==> Less(a, b)
    ensures Cmp(a, b) == 0 <==> a == b
    ensures Cmp(a, b) > 0 <==> Less(b, a)
  {
    if a != [] && b != [] && a[0] == b[0] {
      CmpIsOrder(a[1..], b[1..]);
      assert a == [a[0]] + a[1..] && b == [b[0]] + b[1..];
    }
  }

  function Distance(x: nat, y: nat): nat {
    if x < y then y - x else x - y
  }

  /** The first tokens that differ are two numbers whose distance is zero or changes its sign in 32 bits. */
  predicate Misjudged(a: seq<Token>, b: seq<Token>) {
    if a == [] || b == [] then false
    else if a[0] == b[0] then Misjudged(a[1..], b[1..])
    else a[0].Num? && b[0].Num? && !(0 < Distance(a[0].value, b[0].value) % INT_SPAN < INT_HALF)
  }

  /** Whatever the numbers are, the comparison is right in both orders exactly when it misjudges no first difference. */
  lemma {:induction false} CmpIsOrderIff(a: seq<Token>, b: seq<Token>)
    ensures !Misjudged(a, b) <==>
      && (Cmp(a, b) < 0 <==> Less(a, b))
      && (Cmp(b, a) < 0 <==> Less(b, a))
      && (Cmp(a, b) == 0 <==> a == b)
  {
    if a != [] && b != [] {
      if a[0] == b[0] {
        CmpIsOrderIff(a[1..], b[1..]);
        assert a == [a[0]] + a[1..] && b == [b[0]] + b[1..];
      } else if a[0].Num? && b[0].Num? {
        Opposite(a[0].value - b[0].value);
      }
    }
  }

  lemma Opposite(d: int)
    ensures (-d) % INT_SPAN == if d % INT_SPAN == 0 then 0 else INT_SPAN - d % INT_SPAN
  {
    var q, r := d / INT_SPAN, d % INT_SPAN;
    assert d == q * INT_SPAN + r;
    assert -d == (-q) * INT_SPAN - r == (-q - 1) * INT_SPAN + (INT_SPAN - r);
  }

  /** A number written out. */
  function Decimal(n: nat): Name {
    if n < 10 then [ZERO + n] else Decimal(n / 10) + [ZERO + n % 10]
  }

  /** Up to a bit below 2^64 a number that is written out is read again; a larger one becomes the largest there is. */
  lemma DecimalReadsBack(n: nat)
    ensures Tokens(Decimal(n)) == [Num(if n / 10 < 0xFFFF_FFFF_FFFF_FFFF / 10 - 10 then n else 0xFFFF_FFFF_FFFF_FFFF)]
  {
    hide Decimal;
    DecimalDigits(n);
    var s := Decimal(n);
    NumberToken(s, 0, |s|);
    assert s[0..] == s[0..|s|] == s && s[|s|..] == [];
  }

  lemma {:induction false} DecimalDigits(n: nat)
    ensures Decimal(n) != [] && forall i :: 0 <= i < |Decimal(n)| ==> IsDigit(Decimal(n)[i])
    ensures NumberOf(Decimal(n)) == if n / 10 < ULONG_MAX / 10 - 10 then n else ULONG_MAX
  {
    var s := Decimal(n);
    if n < 10 {
      assert s[..0] == [];
    } else {
      DecimalDigits(n / 10);
      assert s[..|s| - 1] == Decimal(n / 10);
    }
  }

  /** The names of the numbers 0 and 2^31 each come before the other, those of 0 and 2^32 count as equal. */
  lemma LargeNumbersAreNotOrdered()
    ensures var zero, half := Decimal(0), Decimal(INT_HALF); NameCmp(zero, half) < 0 && NameCmp(half, zero) < 0
    ensures var zero, span := Decimal(0), Decimal(INT_SPAN); NameCmp(zero, span) == 0 && zero != span
  {
    hide Decimal, Tokens;
    DecimalReadsBack(0);
    DecimalReadsBack(INT_HALF);
    DecimalReadsBack(INT_SPAN);
  }

  lemma {:induction false} LessTrans(a: seq<Token>, b: seq<Token>, c: seq<Token>)
    requires Less(a, b) && Less(b, c)
    ensures Less(a, c)
  {
    if a != [] && b != [] && c != [] && a[0] == b[0] == c[0] {
      LessTrans(a[1..], b[1..], c[1..]);
    }
  }

  lemma {:induction false} LessIrreflexive(a: seq<Token>)
    ensures !Less(a, a)
  {
    if a != [] {
      LessIrreflexive(a[1..]);
    }
  }

  lemma {:induction false} LessTotal(a: seq<Token>, b: seq<Token>)
    ensures Less(a, b) || a == b || Less(b, a)
  {
    if a != [] && b != [] && a[0] == b[0] {
      LessTotal(a[1..], b[1..]);
      assert a == [a[0]] + a[1..] && b == [b[0]] + b[1..];
    }
  }

  // ---------------------------------------------------------------------------------------------
  // Which names count as equal

  /** No number of more than one digit starts with a zero. */
  predicate NoLeadingZeros(s: Name)
    decreases |s|
  {
    if s == [] then true
    else if IsDigit(s[0]) then
      var k := DigitRun(s);
      (s[0] == ZERO ==> k == 1) && NoLeadingZeros(s[k..])
    else NoLeadingZeros(s[1..])
  }

  lemma FirstIsNum(s: Name)
    requires s != []
    ensures Tokens(s) != [] && (Tokens(s)[0].Num? <==> IsDigit(s[0]))
  {
  }

  /** Without leading zeros and with small numbers, only equal names count as equal. */
  lemma {:induction false} TokensDetermineName(l: Name, r: Name)
    requires NoLeadingZeros(l) && NoLeadingZeros(r) && Small(Tokens(l)) && Tokens(l) == Tokens(r)
    ensures l == r
    decreases |l|
  {
    if l != [] && r != [] {
      var a := Tokens(l);
      FirstIsNum(l);
      FirstIsNum(r);
      if IsDigit(l[0]) {
        var k, m := DigitRun(l), DigitRun(r);
        assert a[0] == Num(NumberOf(l[..k])) == Num(NumberOf(r[..m]));
        assert a[1..] == Tokens(l[k..]) == Tokens(r[m..]);
        DigitsDetermined(l[..k], r[..m]);
        TokensDetermineName(l[k..], r[m..]);
        assert l == l[..k] + l[k..] && r == r[..m] + r[m..];
      } else {
        assert a[0] == Ch(l[0]) == Ch(r[0]);
        assert a[1..] == Tokens(l[1..]) == Tokens(r[1..]);
        TokensDetermineName(l[1..], r[1..]);
        assert l == [l[0]] + l[1..] && r == [r[0]] + r[1..];
      }
    }
  }

  ghost predicate Digits(s: Name) {
    |s| > 0 && (forall i :: 0 <= i < |s| ==> IsDigit(s[i])) && (s[0] == ZERO ==> |s| == 1)
  }

  lemma {:induction false} DigitsDetermined(s: Name, t: Name)
    requires Digits(s) && Digits(t) && NumberOf(s) == NumberOf(t) < INT_HALF
    ensures s == t
    decreases |s|
  {
    var u, v := s[..|s| - 1], t[..|t| - 1];
    LastDigit(s);
    LastDigit(t);
    if |s| > 1 && |t| > 1 {
      DigitsDetermined(u, v);
    } else if |s| > 1 {
      NotZero(u);
    } else if |t| > 1 {
      NotZero(v);
    }
    assert s == u + [s[|s| - 1]] && t == v + [t[|t| - 1]];
  }

  /** A number that stayed small was read exactly. */
  lemma LastDigit(s: Name)
    requires Digits(s) && NumberOf(s) < INT_HALF
    ensures NumberOf(s) == NumberOf(s[..|s| - 1]) * 10 + (s[|s| - 1] - ZERO)
    ensures NumberOf(s[..|s| - 1]) <= NumberOf(s)
  {
  }

  lemma {:induction false} NotZero(s: Name)
    requires Digits(s) && s[0] != ZERO
    ensures NumberOf(s) > 0
  {
    if |s| > 1 {
      NotZero(s[..|s| - 1]);
    } else {
      assert NumberOf(s[..0]) == 0;
    }
  }

  /** The names `1` and `01` count as equal. */
  lemma LeadingZerosCountAsEqual()
    ensures Tokens([ZERO + 1]) == Tokens([ZERO, ZERO + 1]) == [Num(1)]
    ensures NameCmp([ZERO + 1], [ZERO, ZERO + 1]) == NameCmp([ZERO, ZERO + 1], [ZERO + 1]) == 0
  {
    var l, r := [ZERO + 1], [ZERO, ZERO + 1];
    assert l[..0] == [] && r[..1] == [ZERO] && r[..1][..0] == [];
    assert NumberOf(l) == 1 && NumberOf(r[..1]) == 0 && NumberOf(r) == 1;
    NumberToken(l, 0, 1);
    NumberToken(r, 0, 2);
    assert l[0..1] == l[0..] == l && r[0..2] == r[0..] == r && l[1..] == [] && r[2..] == [];
    assert Tokens(l) == [Num(1)];
    assert Tokens(r) == [Num(1)];
    CmpIsOrder(Tokens(l), Tokens(r));
    CmpIsOrder(Tokens(r), Tokens(l));
  }

  // ---------------------------------------------------------------------------------------------
  // Sorted lists of parameters

  ghost predicate AllSmall(names: seq<Name>) {
    forall i :: 0 <= i < |names| ==> Small(Tokens(names[i]))
  }

  ghost predicate Flips(a: Name, b: Name) {
    NameCmp(a, b) < 0 <==> NameCmp(b, a) > 0
  }

  ghost predicate Chains(a: Name, b: Name, c: Name) {
    NameCmp(a, b) <= 0 && NameCmp(b, c) <= 0 ==> NameCmp(a, c) <= 0
  }

  /** The comparison orders these names, as the sort of the C library demands it. */
  ghost predicate IsOrderOn(names: set<Name>) {
    && (forall a, b :: a in names && b in names ==> Flips(a, b))
    && (forall a, b, c :: a in names && b in names && c in names ==> Chains(a, b, c))
  }

  /** No two of the names are misjudged. */
  ghost predicate Judged(names: set<Name>) {
    forall a, b :: a in names && b in names ==> !Misjudged(Tokens(a), Tokens(b))
  }

  function Elems(names: seq<Name>): set<Name> {
    set a | a in names
  }

  /** It orders names of which it misjudges no two. */
  lemma JudgedIsOrder(names: set<Name>)
    requires Judged(names)
    ensures IsOrderOn(names)
  {
    hide Tokens, Cmp, Less, Misjudged;
    forall a, b | a in names && b in names
      ensures Flips(a, b)
    {
      JudgedFlips(a, b);
    }
    forall a, b, c | a in names && b in names && c in names
      ensures Chains(a, b, c)
    {
      JudgedChains(a, b, c);
    }
  }

  lemma JudgedFlips(a: Name, b: Name)
    requires Judged({a, b})
    ensures Flips(a, b)
  {
    hide Tokens, Cmp, Less, Misjudged;
    CmpIsOrderIff(Tokens(a), Tokens(b));
    CmpIsOrderIff(Tokens(b), Tokens(a));
    LessTotal(Tokens(a), Tokens(b));
    LessIrreflexive(Tokens(a));
    if Less(Tokens(a), Tokens(b)) && Less(Tokens(b), Tokens(a)) {
      LessTrans(Tokens(a), Tokens(b), Tokens(a));
    }
  }

  lemma JudgedChains(a: Name, b: Name, c: Name)
    requires Judged({a, b, c})
    ensures Chains(a, b, c)
  {
    hide Tokens, Cmp, Less, Misjudged;
    CmpIsOrderIff(Tokens(a), Tokens(b));
    CmpIsOrderIff(Tokens(b), Tokens(c));
    CmpIsOrderIff(Tokens(a), Tokens(c));
    if Less(Tokens(a), Tokens(b)) && Less(Tokens(b), Tokens(c)) {
      LessTrans(Tokens(a), Tokens(b), Tokens(c));
    }
  }

  /** In particular it orders names with numbers below 2^31. */
  lemma SmallIsJudged(names: seq<Name>)
    requires AllSmall(names)
    ensures Judged(Elems(names)) && IsOrderOn(Elems(names))
  {
    hide Tokens, Small, Misjudged, IsOrderOn;
    forall a, b | a in names && b in names
      ensures !Misjudged(Tokens(a), Tokens(b))
    {
      CmpIsOrder(Tokens(a), Tokens(b));
      CmpIsOrder(Tokens(b), Tokens(a));
      CmpIsOrderIff(Tokens(a), Tokens(b));
    }
    JudgedIsOrder(Elems(names));
  }

  /** What a sort by the comparison leaves. */
  predicate Sorted(names: seq<Name>) {
    forall i, j :: 0 <= i < j < |names| ==> NameCmp(names[i], names[j]) <= 0
  }

  lemma CmpChain(a: Name, b: Name, c: Name, names: set<Name>)
    requires IsOrderOn(names) && a in names && b in names && c in names
    requires NameCmp(a, b) <= 0 && NameCmp(b, c) <= 0
    ensures NameCmp(a, c) <= 0
    ensures NameCmp(a, b) < 0 || NameCmp(b, c) < 0 ==> NameCmp(a, c) < 0
    ensures NameCmp(c, a) >= 0
    ensures NameCmp(a, b) < 0 || NameCmp(b, c) < 0 ==> NameCmp(c, a) > 0
  {
    hide NameCmp;
    assert Flips(a, b) && Flips(b, c) && Flips(a, c) && Flips(b, a) && Flips(c, b) && Flips(c, a);
    assert Chains(a, b, c) && Chains(c, a, b) && Chains(b, c, a);
  }

  ghost predicate HasDuplicate(names: seq<Name>) {
    exists i, j :: 0 <= i < j < |names| && names[i] == names[j]
  }

  ghost predicate AdjacentDuplicate(names: seq<Name>) {
    exists i :: 0 <= i && i + 1 < |names| && names[i] == names[i + 1]
  }

  /** The search for duplicates compares neighbours only. */
  method FindDuplicate(names: seq<Name>) returns (found: bool)
    ensures found <==> AdjacentDuplicate(names)
  {
    var i := 0;
    while i + 1 < |names|
      invariant i == 0 || i < |names|
      invariant forall k :: 0 <= k < i ==> names[k] != names[k + 1]
    {
      if names[i] == names[i + 1] {
        return true;
      }
      i := i + 1;
    }
    return false;
  }

  /** Different names of the list never count as equal. */
  ghost predicate NoAliases(names: seq<Name>) {
    forall i, j :: 0 <= i < |names| && 0 <= j < |names| && NameCmp(names[i], names[j]) == 0 ==> names[i] == names[j]
  }

  /** In a sorted list without aliases the neighbours tell all duplicates. */
  lemma NeighboursTellDuplicates(names: seq<Name>)
    requires IsOrderOn(Elems(names)) && Sorted(names) && NoAliases(names)
    ensures AdjacentDuplicate(names) <==> HasDuplicate(names)
  {
    hide NameCmp, IsOrderOn;
    if i, j :| 0 <= i < j < |names| && names[i] == names[j] {
      assert NameCmp(names[i], names[i + 1]) <= 0;
      if i + 1 < j {
        assert NameCmp(names[i + 1], names[j]) <= 0;
        CmpChain(names[i], names[i + 1], names[j], Elems(names));
      }
      SelfEqual(names[i]);
      assert NameCmp(names[i], names[i + 1]) == 0;
      assert names[i] == names[i + 1];
    }
  }

  lemma SelfEqual(a: Name)
    ensures NameCmp(a, a) == 0
  {
    hide Tokens;
    CmpSelf(Tokens(a));
  }

  lemma {:induction false} CmpSelf(a: seq<Token>)
    ensures Cmp(a, a) == 0
  {
    if a != [] {
      CmpSelf(a[1..]);
    }
  }

  /** Names without leading zeros have no aliases. */
  lemma PlainNamesHaveNoAliases(names: seq<Name>)
    requires AllSmall(names) && forall i :: 0 <= i < |names| ==> NoLeadingZeros(names[i])
    ensures NoAliases(names)
  {
    hide Tokens, Small, Cmp, NoLeadingZeros;
    forall i, j | 0 <= i < |names| && 0 <= j < |names| && NameCmp(names[i], names[j]) == 0
      ensures names[i] == names[j]
    {
      CmpIsOrder(Tokens(names[i]), Tokens(names[j]));
      TokensDetermineName(names[i], names[j]);
    }
  }

  /** With an alias between them, two equal names of a sorted list go unnoticed. */
  lemma AliasHidesDuplicate()
    ensures var names := [[ZERO + 1], [ZERO, ZERO + 1], [ZERO + 1]];
      Sorted(names) && HasDuplicate(names) && !AdjacentDuplicate(names)
  {
    hide Tokens, Cmp, NameCmp;
    var names: seq<Name> := [[ZERO + 1], [ZERO, ZERO + 1], [ZERO + 1]];
    assert names[0] == names[2] && names[0] != names[1] && names[1] != names[2];
    LeadingZerosCountAsEqual();
    SelfEqual(names[0]);
  }

  // ---------------------------------------------------------------------------------------------
  // Carrying values over

  /** The first parameter that counts as equal to the name, or the number of parameters if there is none. */
  function FirstEqual(params: seq<Name>, name: Name): (j: nat)
    ensures j <= |params|
    ensures forall q :: 0 <= q < j ==> NameCmp(params[q], name) != 0
    ensures j < |params| ==> NameCmp(params[j], name) == 0
  {
    if params == [] then 0
    else if NameCmp(params[0], name) == 0 then 0
    else 1 + FirstEqual(params[1..], name)
  }

  /** The value found by a search of the whole list. */
  function Joined<V>(params: seq<Name>, paramValues: seq<V>, name: Name, default: V): V
    requires |params| == |paramValues|
  {
    var j := FirstEqual(params, name);
    if j < |params| then paramValues[j] else default
  }

  /** That is the value of the first parameter that counts as equal, if there is one. */
  lemma JoinedMeans<V>(params: seq<Name>, paramValues: seq<V>, name: Name, default: V, q: nat)
    requires |params| == |paramValues|
    ensures (forall r :: 0 <= r < |params| ==> NameCmp(params[r], name) != 0) ==>
      Joined(params, paramValues, name, default) == default
    ensures q < |params| && NameCmp(params[q], name) == 0 ==>
      (forall r :: 0 <= r < q ==> NameCmp(params[r], name) != 0) ==>
        Joined(params, paramValues, name, default) == paramValues[q]
  {
    hide NameCmp;
  }

  /** All parameters before `j` come before the name. */
  ghost predicate AllBefore(params: seq<Name>, j: nat, name: Name) {
    j <= |params| && forall q :: 0 <= q < j ==> NameCmp(params[q], name) < 0
  }

  ghost predicate Among(names: seq<Name>, all: set<Name>) {
    forall q :: 0 <= q < |names| ==> names[q] in all
  }

  /** The comparison orders these names, the parameters and the name among them. */
  ghost predicate OrderedWith(params: seq<Name>, name: Name, all: set<Name>) {
    IsOrderOn(all) && name in all && Among(params, all)
  }

  lemma FirstEqualHere(params: seq<Name>, j: nat, name: Name, all: set<Name>)
    requires OrderedWith(params, name, all) && Sorted(params)
    requires AllBefore(params, j, name) && j < |params|
    ensures NameCmp(params[j], name) == 0 ==> FirstEqual(params, name) == j
    ensures NameCmp(params[j], name) > 0 || (NameCmp(params[j], name) < 0 && j + 1 == |params|) ==>
      FirstEqual(params, name) == |params|
  {
    hide NameCmp, IsOrderOn;
    if NameCmp(params[j], name) > 0 {
      forall q | j < q < |params|
        ensures NameCmp(params[q], name) != 0
      {
        Above(params[j], params[q], name, all);
      }
    }
  }

  lemma Above(a: Name, b: Name, name: Name, all: set<Name>)
    requires IsOrderOn(all) && a in all && b in all && name in all
    requires NameCmp(a, b) <= 0 && NameCmp(a, name) > 0
    ensures NameCmp(b, name) > 0
  {
    hide NameCmp;
    assert Flips(name, a);
    CmpChain(name, a, b, all);
  }

  lemma BeforeNext(params: seq<Name>, j: nat, name: Name, next: Name, all: set<Name>)
    requires OrderedWith(params, name, all) && OrderedWith(params, next, all)
    requires AllBefore(params, j, name) && NameCmp(name, next) <= 0
    ensures AllBefore(params, j, next)
  {
    hide NameCmp, IsOrderOn;
    forall q | 0 <= q < j
      ensures NameCmp(params[q], next) < 0
    {
      CmpChain(params[q], name, next, all);
    }
  }

  lemma NothingBefore(params: seq<Name>, names: seq<Name>)
    ensures forall i :: 0 <= i < |names| ==> AllBefore(params, 0, names[i])
  {
  }

  lemma SortedNeighbours(names: seq<Name>)
    requires Sorted(names)
    ensures forall i :: 0 < i < |names| ==> NameCmp(names[i - 1], names[i]) <= 0
  {
    hide NameCmp;
  }

  /** Passes over the parameters that come before the name, but never over the last one. */
  method Advance(params: seq<Name>, from: nat, name: Name) returns (j: nat, c: int)
    requires from < |params| && AllBefore(params, from, name)
    ensures from <= j < |params| && AllBefore(params, j, name)
    ensures c == NameCmp(params[j], name) && (c < 0 ==> j + 1 == |params|)
  {
    hide NameCmp;
    j := from;
    c := NaturalSortCmp(params[j], name);
    while c < 0 && j < |params| - 1
      invariant from <= j < |params| && c == NameCmp(params[j], name)
      invariant AllBefore(params, j, name)
      decreases |params| - j
    {
      j := j + 1;
      c := NaturalSortCmp(params[j], name);
    }
  }

  /** A tunable parameter. */
  class Tunable<V> {
    const name: Name
    var value: V

    constructor (name: Name, value: V)
      ensures this.name == name && this.value == value
    {
      this.name, this.value := name, value;
    }
  }

  function NamesOf<V>(s: seq<Tunable<V>>): (names: seq<Name>)
    ensures |names| == |s| && forall i :: 0 <= i < |s| ==> names[i] == s[i].name
  {
    seq(|s|, i requires 0 <= i < |s| => s[i].name)
  }

  /** Where a name belongs in a sorted list: behind all that do not come after it. */
  method Place<V>(s: seq<Tunable<V>>, name: Name, ghost all: set<Name>) returns (k: nat)
    requires OrderedWith(NamesOf(s), name, all) && Sorted(NamesOf(s))
    ensures k <= |s|
    ensures forall i :: 0 <= i < k ==> NameCmp(s[i].name, name) <= 0
    ensures forall i :: k <= i < |s| ==> NameCmp(name, s[i].name) <= 0
  {
    hide NameCmp, IsOrderOn;
    k := |s|;
    while k > 0
      invariant k <= |s|
      invariant forall i :: k <= i < |s| ==> NameCmp(name, s[i].name) <= 0
    {
      var c := NaturalSortCmp(s[k - 1].name, name);
      assert NamesOf(s)[k - 1] == s[k - 1].name;
      if c <= 0 {
        forall i | 0 <= i < k - 1
          ensures NameCmp(s[i].name, name) <= 0
        {
          assert NamesOf(s)[i] == s[i].name;
          CmpChain(s[i].name, s[k - 1].name, name, all);
        }
        return;
      }
      CmpFlips(name, s[k - 1].name, all);
      k := k - 1;
    }
  }

  lemma CmpFlips(a: Name, b: Name, all: set<Name>)
    requires IsOrderOn(all) && a in all && b in all
    ensures NameCmp(a, b) < 0 <==> NameCmp(b, a) > 0
  {
    hide NameCmp;
    assert Flips(a, b);
  }

  /** A sort by name, in place of the one of the C library. */
  method SortByName<V>(s: seq<Tunable<V>>) returns (t: seq<Tunable<V>>)
    requires IsOrderOn(Elems(NamesOf(s)))
    ensures multiset(t) == multiset(s) && Sorted(NamesOf(t))
  {
    hide NameCmp, IsOrderOn, Sorted, Among;
    ghost var all := Elems(NamesOf(s));
    NothingYet(all);
    t := [];
    for i := 0 to |s|
      invariant multiset(t) == multiset(s[..i]) && Sorted(NamesOf(t)) && Among(NamesOf(t), all)
    {
      assert NamesOf(s)[i] == s[i].name;
      var k := Place(t, s[i].name, all);
      InsertKeepsSorted(t, k, s[i], all);
      assert t == t[..k] + t[k..];
      assert s[..i + 1] == s[..i] + [s[i]];
      t := t[..k] + [s[i]] + t[k..];
    }
    assert s[..|s|] == s;
  }

  lemma NothingYet(all: set<Name>)
    ensures Sorted([]) && Among([], all)
  {
  }

  lemma InsertKeepsSorted<V>(t: seq<Tunable<V>>, k: nat, x: Tunable<V>, all: set<Name>)
    requires Sorted(NamesOf(t)) && Among(NamesOf(t), all) && x.name in all && k <= |t|
    requires forall i :: 0 <= i < k ==> NameCmp(t[i].name, x.name) <= 0
    requires forall i :: k <= i < |t| ==> NameCmp(x.name, t[i].name) <= 0
    ensures var u := t[..k] + [x] + t[k..]; Sorted(NamesOf(u)) && Among(NamesOf(u), all)
  {
    hide NameCmp, Sorted, Among;
    var u, names := t[..k] + [x] + t[k..], NamesOf(t);
    assert NamesOf(u) == names[..k] + [x.name] + names[k..];
    InsertName(names, k, x.name, all);
  }

  lemma InsertName(names: seq<Name>, k: nat, name: Name, all: set<Name>)
    requires Sorted(names) && Among(names, all) && name in all && k <= |names|
    requires forall i :: 0 <= i < k ==> NameCmp(names[i], name) <= 0
    requires forall i :: k <= i < |names| ==> NameCmp(name, names[i]) <= 0
    ensures var u := names[..k] + [name] + names[k..]; Sorted(u) && Among(u, all)
  {
    hide NameCmp;
    var u := names[..k] + [name] + names[k..];
    forall i, j | 0 <= i < j < |u|
      ensures NameCmp(u[i], u[j]) <= 0
    {
      if i != k && j != k {
        var i', j' := if i < k then i else i - 1, if j < k then j else j - 1;
        assert NameCmp(names[i'], names[j']) <= 0;
      }
    }
  }

  ghost predicate Permuted<V>(s: seq<Tunable<V>>, t: seq<Tunable<V>>) {
    multiset(s) == multiset(t)
  }

  /**
    Sorts the tunable parameters and passes once over both sorted lists; each of them gets the value that a
    search of the whole list of parameters would find, and keeps its own if there is none.
  */
  method UpdateTunableParamValues<V>(tunables: array<Tunable<V>>, params: seq<Name>, paramValues: seq<V>)
    requires |params| == |paramValues| && Sorted(params)
    requires IsOrderOn(Elems(params) + Elems(NamesOf(tunables[..])))
    requires forall i, j :: 0 <= i < j < tunables.Length ==> tunables[i] != tunables[j]
    modifies tunables, set t | t in tunables[..] :: t
    ensures Permuted(old(tunables[..]), tunables[..])
    ensures params != [] ==> Sorted(NamesOf(tunables[..]))
    ensures forall t :: t in old(tunables[..]) ==> t.value == Joined(params, paramValues, t.name, old(t.value))
  {
    hide NameCmp, IsOrderOn, Sorted;
    if |params| == 0 {
      return;
    }
    SubsetOrdered(Elems(NamesOf(tunables[..])), Elems(params) + Elems(NamesOf(tunables[..])));
    var sorted := SortByName(tunables[..]);
    ghost var before := tunables[..];
    PermutedObjects(before, sorted);
    for i := 0 to tunables.Length
      invariant tunables[..i] == sorted[..i]
      invariant forall t :: t in before ==> t.value == old(t.value)
    {
      tunables[i] := sorted[i];
    }
    assert tunables[..] == sorted;
    SameNames(before, sorted);
    Merge(sorted, params, paramValues);
    assert forall t :: t in before ==> t in multiset(before);
  }

  lemma SubsetOrdered(s: set<Name>, t: set<Name>)
    requires IsOrderOn(t) && s <= t
    ensures IsOrderOn(s)
  {
    hide Flips, Chains;
  }

  lemma SameNames<V>(s: seq<Tunable<V>>, t: seq<Tunable<V>>)
    requires forall x :: x in s <==> x in t
    ensures Elems(NamesOf(s)) == Elems(NamesOf(t))
  {
    NamesAmong(s, t);
    NamesAmong(t, s);
  }

  lemma NamesAmong<V>(s: seq<Tunable<V>>, t: seq<Tunable<V>>)
    requires forall x :: x in s ==> x in t
    ensures Elems(NamesOf(s)) <= Elems(NamesOf(t))
  {
    forall a | a in NamesOf(s)
      ensures a in NamesOf(t)
    {
      var i :| 0 <= i < |s| && NamesOf(s)[i] == a;
      assert s[i] in t;
      var j :| 0 <= j < |t| && t[j] == s[i];
      assert NamesOf(t)[j] == a;
    }
  }

  lemma PermutedObjects<V>(s: seq<Tunable<V>>, t: seq<Tunable<V>>)
    requires multiset(s) == multiset(t)
    requires forall i, j :: 0 <= i < j < |s| ==> s[i] != s[j]
    ensures |s| == |t| && (forall x :: x in s <==> x in t)
    ensures forall i, j :: 0 <= i < j < |t| ==> t[i] != t[j]
  {
    assert |s| == |multiset(s)| == |multiset(t)| == |t|;
    assert forall x :: x in s <==> x in multiset(s);
    assert forall x :: x in t <==> x in multiset(t);
    forall i, j | 0 <= i < j < |t|
      ensures t[i] != t[j]
    {
      if t[i] == t[j] {
        assert t == t[..j] + t[j..];
        assert t[..j][i] == t[i] && t[j..][0] == t[i];
        assert multiset(s)[t[i]] >= 2;
        OnlyOnce(s, t[i]);
      }
    }
  }

  lemma {:induction false} OnlyOnce<V>(s: seq<Tunable<V>>, x: Tunable<V>)
    requires forall i, j :: 0 <= i < j < |s| ==> s[i] != s[j]
    ensures multiset(s)[x] <= 1
  {
    if s != [] {
      var n := |s| - 1;
      assert s == s[..n] + [s[n]];
      OnlyOnce(s[..n], x);
      if s[n] == x {
        assert x !in s[..n];
      }
    }
  }

  lemma OrderedWithAll(params: seq<Name>, names: seq<Name>)
    requires IsOrderOn(Elems(params) + Elems(names))
    ensures forall i :: 0 <= i < |names| ==> OrderedWith(params, names[i], Elems(params) + Elems(names))
  {
    hide IsOrderOn;
  }

  /** The single pass over both sorted lists. */
  method Merge<V>(tunables: seq<Tunable<V>>, params: seq<Name>, paramValues: seq<V>)
    requires |params| == |paramValues| > 0 && Sorted(params)
    requires IsOrderOn(Elems(params) + Elems(NamesOf(tunables))) && Sorted(NamesOf(tunables))
    requires forall i, j :: 0 <= i < j < |tunables| ==> tunables[i] != tunables[j]
    modifies set t | t in tunables :: t
    ensures forall t :: t in tunables ==> t.value == Joined(params, paramValues, t.name, old(t.value))
  {
    hide NameCmp, IsOrderOn, AllBefore, Sorted, Elems, OrderedWith, FirstEqual;
    var names := NamesOf(tunables);
    ghost var all := Elems(params) + Elems(names);
    OrderedWithAll(params, names);
    SortedNeighbours(names);
    NothingBefore(params, names);
    var j := 0;
    for i := 0 to |tunables|
      invariant 0 <= j < |params|
      invariant i < |tunables| ==> AllBefore(params, j, names[i])
      invariant forall k :: 0 <= k < i ==>
        tunables[k].value == Joined(params, paramValues, names[k], old(tunables[k].value))
      invariant forall k :: i <= k < |tunables| ==> tunables[k].value == old(tunables[k].value)
    {
      var c: int;
      j, c := Advance(params, j, names[i]);
      FirstEqualHere(params, j, names[i], all);
      if c == 0 {
        assert tunables[i] in tunables;
        tunables[i].value := paramValues[j];
      }
      if i + 1 < |tunables| {
        BeforeNext(params, j, names[i], names[i + 1], all);
      }
    }
  }

  function FirstNamed(params: seq<Name>, name: Name): (j: nat)
    ensures j <= |params|
    ensures forall q :: 0 <= q < j ==> params[q] != name
    ensures j < |params| ==> params[j] == name
  {
    if params == [] then 0
    else if params[0] == name then 0
    else 1 + FirstNamed(params[1..], name)
  }

  /**
    The value comes from the parameter of the same name exactly when no other name that counts as equal stands
    before it.
  */
  lemma SameNameIff(params: seq<Name>, name: Name)
    ensures FirstEqual(params, name) == FirstNamed(params, name) <==>
      forall q :: 0 <= q < |params| && NameCmp(params[q], name) == 0 && name !in params[..q] ==> params[q] == name
  {
    hide NameCmp;
    SelfEqual(name);
    var j, n := FirstEqual(params, name), FirstNamed(params, name);
    assert n < |params| ==> j <= n;
    assert j < |params| ==> name !in params[..j];
    assert forall q :: n < q < |params| ==> params[..q][n] == name;
  }
}
