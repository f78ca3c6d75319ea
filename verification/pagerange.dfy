/** The `--page` option parser `parse_range` of the command-line tool
    (main.cpp): "a" selects page a, "a--b" selects pages a to b inclusive.
    The C library conversions it calls are modelled from their C and C++
    definitions: `atoi` and `stoi` skip white space, read an optional sign
    and the longest run of decimal digits after it, and ignore the rest;
    `atoi` yields 0 when there are no digits, `stoi` throws. */
module PageRange {
  import opened Wrappers
  import opened Text

  /** The ways `parse_range` fails to return pages: the exceptions it lets
      escape, and the undefined behaviour it runs into. */
  datatype RangeError =
    | InvalidArgument   // std::stoi found no digits
    | OutOfRange        // std::stoi read a value that does not fit an int
    | BoundOverflow     // b = INT_MAX: the int addition b + 1 overflows
    | EmptyIota         // a > b + 1: std::views::iota(a, b + 1) has no valid bound

  const IntMin: int := -0x8000_0000
  const IntMax: int := 0x7fff_ffff

  /** The white space of the C locale, as `isspace` classifies it. */
  predicate IsSpace(c: char) { c == ' ' || c == '\t' || c == '\n' || c == '\U{B}' || c == '\U{C}' || c == '\r' }

  /** The first position at or after `i` that is not white space. */
  function SkipSpace(s: string, i: nat): (j: nat)
    requires i <= |s|
    ensures i <= j <= |s|
    ensures forall t :: i <= t < j ==> IsSpace(s[t])
    ensures j == |s| || !IsSpace(s[j])
    decreases |s| - i
  {
    if i < |s| && IsSpace(s[i]) then SkipSpace(s, i + 1) else i
  }

  /** The end of the run of digits that starts at `i`. */
  function DigitsEnd(s: string, i: nat): (j: nat)
    requires i <= |s|
    ensures i <= j <= |s|
    ensures forall t :: i <= t < j ==> IsDigit(s[t])
    ensures j == |s| || !IsDigit(s[j])
    decreases |s| - i
  {
    if i < |s| && IsDigit(s[i]) then DigitsEnd(s, i + 1) else i
  }

  /** The integer `strtol` reads at the front of `s` in base 10, or None when
      no digit follows the white space and the sign. */
  function LeadingInt(s: string): Option<int>
  {
    var i := SkipSpace(s, 0);
    var neg := i < |s| && s[i] == '-';
    var j := if i < |s| && (s[i] == '-' || s[i] == '+') then i + 1 else i;
    var k := DigitsEnd(s, j);
    if k == j then None
    else
      var v: int := Value(s[j..k]);
      Some(if neg then -v else v)
  }

  /** std::atoi: the leading integer, or 0 when there is none. */
  function Atoi(s: string): int
  {
    match LeadingInt(s)
    case None => 0
    case Some(v) => v
  }

  /** std::stoi: the leading integer, throwing when there is none or when it
      does not fit an int. */
  function Stoi(s: string): (r: Result<int, RangeError>)
    ensures r.Ok? ==> IntMin <= r.value <= IntMax
  {
    match LeadingInt(s)
    case None => Err(InvalidArgument)
    case Some(v) => if IntMin <= v <= IntMax then Ok(v) else Err(OutOfRange)
  }

  /** std::string::find("--"): the first position of two consecutive dashes. */
  function FindSeparator(s: string): (r: Option<nat>)
    ensures r.Some? ==> r.value + 2 <= |s| && s[r.value] == '-' && s[r.value + 1] == '-'
    ensures forall t :: 0 <= t < |s| - 1 && (r.None? || t < r.value) ==> !(s[t] == '-' && s[t + 1] == '-')
  {
    FindSeparatorFrom(s, 0)
  }

  function FindSeparatorFrom(s: string, i: nat): (r: Option<nat>)
    requires i <= |s|
    ensures r.Some? ==> i <= r.value && r.value + 2 <= |s| && s[r.value] == '-' && s[r.value + 1] == '-'
    ensures forall t :: i <= t < |s| - 1 && (r.None? || t < r.value) ==> !(s[t] == '-' && s[t + 1] == '-')
    decreases |s| - i
  {
    if i + 1 >= |s| then None
    else if s[i] == '-' && s[i + 1] == '-' then Some(i)
    else FindSeparatorFrom(s, i + 1)
  }

  /** The pages `std::views::iota(a, b + 1)` enumerates: a, a+1, ..., b. */
  function Iota(a: int, b: int): (pages: seq<int>)
    requires a <= b + 1
    ensures |pages| == b - a + 1
    ensures forall t :: 0 <= t < |pages| ==> pages[t] == a + t
  {
    seq(b - a + 1, t requires 0 <= t < b - a + 1 => a + t)
  }

  /** The view `std::views::iota(a, b + 1)` with `b + 1` computed in int. */
  function IotaView(a: int, b: int): (r: Result<seq<int>, RangeError>)
    ensures r.Ok? <==> b < IntMax && a <= b + 1
    ensures b >= IntMax ==> r == Err(BoundOverflow)
    ensures r.Ok? ==> r.value == Iota(a, b)
  {
    if b >= IntMax then Err(BoundOverflow)
    else if a <= b + 1 then Ok(Iota(a, b))
    else Err(EmptyIota)
  }

  /** parse_range(pages). */
  function ParseRange(pages: string): (r: Result<seq<int>, RangeError>)
    ensures FindSeparator(pages).None? ==>
              (r.Ok? <==> Atoi(pages) < IntMax) && (r.Ok? ==> r.value == [Atoi(pages)])
    ensures r.Ok? ==> forall t :: 0 <= t && t + 1 < |r.value| ==> r.value[t + 1] == r.value[t] + 1
    ensures r.Ok? ==> forall t :: 0 <= t < |r.value| ==> r.value[t] < IntMax
  {
    match FindSeparator(pages)
    case None =>
      var a := Atoi(pages);
      assert a < IntMax ==> Iota(a, a) == [a];
      IotaView(a, a)
    case Some(sep) =>
      match Stoi(pages[..sep])
      case Err(e) => Err(e)
      case Ok(a) =>
        match Stoi(pages[sep + 2..])
        case Err(e) => Err(e)
        case Ok(b) => IotaView(a, b)
  }

  // ---------------------------------------------------------------------------
  // The printer the parser inverts

  /** The decimal text of an integer, with a minus sign when it is negative. */
  function Show(n: int): (s: string)
    ensures |s| >= 1
    ensures forall t :: 1 <= t < |s| ==> IsDigit(s[t])
    ensures s[0] == '-' || IsDigit(s[0])
  {
    if n < 0 then "-" + Digits(-n) else Digits(n)
  }

  /** The leading integer of a number's text followed by anything that does
      not start with a digit is that number. */
  lemma LeadingIntOfShow(n: int, rest: string)
    requires |rest| == 0 || !IsDigit(rest[0])
    ensures LeadingInt(Show(n) + rest) == Some(n)
  {
    var s := Show(n) + rest;
    var ds := if n < 0 then Digits(-n) else Digits(n);
    var j := if n < 0 then 1 else 0;
    assert !IsSpace(s[0]);
    assert SkipSpace(s, 0) == 0;
    assert s[j..] == ds + rest;
    DigitsEndOf(s, j, ds, rest);
    assert s[j..j + |ds|] == ds;
    ValueOfDigits(if n < 0 then -n else n);
  }

  /** A run of digits followed by a non-digit ends where the run ends. */
  lemma {:induction false} DigitsEndOf(s: string, j: nat, ds: string, rest: string)
    requires j <= |s| && s[j..] == ds + rest
    requires forall t :: 0 <= t < |ds| ==> IsDigit(ds[t])
    requires |rest| == 0 || !IsDigit(rest[0])
    ensures DigitsEnd(s, j) == j + |ds|
    decreases |ds|
  {
    if |ds| > 0 {
      assert s[j] == ds[0];
      assert s[j + 1..] == ds[1..] + rest;
      DigitsEndOf(s, j + 1, ds[1..], rest);
    } else {
      assert j == |s| || s[j] == rest[0];
    }
  }

  /** The text of a number holds no "--". */
  lemma NoSeparatorInShow(n: int)
    ensures FindSeparator(Show(n)).None?
  {
    var s := Show(n);
    forall t | 0 <= t < |s| - 1
      ensures !(s[t] == '-' && s[t + 1] == '-')
    {
      assert IsDigit(s[t + 1]);
    }
    NoSeparatorFrom(s, 0);
  }

  lemma {:induction false} NoSeparatorFrom(s: string, i: nat)
    requires i <= |s|
    requires forall t :: i <= t < |s| - 1 ==> !(s[t] == '-' && s[t + 1] == '-')
    ensures FindSeparatorFrom(s, i).None?
    decreases |s| - i
  {
    if i + 1 < |s| {
      NoSeparatorFrom(s, i + 1);
    }
  }

  /** The first "--" of `Show(a) + "--" + rest` is the one after `Show(a)`. */
  lemma {:induction false} SeparatorAfterShow(a: int, rest: string)
    ensures FindSeparator(Show(a) + "--" + rest) == Some(|Show(a)|)
  {
    var s := Show(a) + "--" + rest;
    var n := |Show(a)|;
    forall t | 0 <= t < n
      ensures !(s[t] == '-' && s[t + 1] == '-')
    {
      if t + 1 < n {
        assert IsDigit(s[t + 1]);
      } else {
        assert s[t] == Show(a)[t];
        assert t == 0 || IsDigit(s[t]);
        assert t == 0 ==> IsDigit(Show(a)[0]) || |Show(a)| > 1;
      }
    }
    SeparatorFrom(s, 0, n);
  }

  lemma {:induction false} SeparatorFrom(s: string, i: nat, n: nat)
    requires i <= n && n + 2 <= |s| && s[n] == '-' && s[n + 1] == '-'
    requires forall t :: i <= t < n ==> !(s[t] == '-' && s[t + 1] == '-')
    ensures FindSeparatorFrom(s, i) == Some(n)
    decreases n - i
  {
    if i < n {
      SeparatorFrom(s, i + 1, n);
    }
  }

  /** A single page number's text selects exactly that page, unless the
      page is INT_MAX, whose successor overflows. */
  lemma ParseSinglePage(a: int)
    ensures ParseRange(Show(a)) == if a < IntMax then Ok([a]) else Err(BoundOverflow)
  {
    NoSeparatorInShow(a);
    LeadingIntOfShow(a, "");
    assert Show(a) + "" == Show(a);
  }

  /** "a--b" for two ints selects the pages a to b, in order, when b is below
      INT_MAX and a <= b + 1; b = INT_MAX overflows, and a > b + 1 leaves the
      view without a valid bound. */
  lemma ParsePageRange(a: int, b: int)
    requires IntMin <= a <= IntMax && IntMin <= b <= IntMax
    ensures ParseRange(Show(a) + "--" + Show(b)) ==
              if b == IntMax then Err(BoundOverflow)
              else if a <= b + 1 then Ok(Iota(a, b))
              else Err(EmptyIota)
  {
    var s := Show(a) + "--" + Show(b);
    SeparatorAfterShow(a, Show(b));
    var n := |Show(a)|;
    assert s[..n] == Show(a) + "";
    assert s[n + 2..] == Show(b) + "";
    LeadingIntOfShow(a, "");
    LeadingIntOfShow(b, "");
  }

  /** The single-page form never fails: text without digits selects page 0. */
  lemma NoDigitsSelectsPageZero()
    ensures ParseRange("last") == Ok([0])
  {
    assert FindSeparator("last").None?;
    assert LeadingInt("last").None?;
  }

  /** The range form fails when either side has no number. */
  lemma RangeNeedsNumbers()
    ensures ParseRange("first--9") == Err(InvalidArgument)
  {
    assert FindSeparator("first--9") == Some(5);
    assert "first--9"[..5] == "first";
    assert LeadingInt("first").None?;
  }
}
