/** Numbered names, and the search for one that is not taken. */
module FreshNames {

  function Digit(d: nat): char
    requires d < 10
  {
    ['0', '1', '2', '3', '4', '5', '6', '7', '8', '9'][d]
  }

  function Decimal(n: nat): (s: string)
    ensures s != ""
  {
    if n < 10 then [Digit(n)] else Decimal(n / 10) + [Digit(n % 10)]
  }

  lemma {:induction false} DecimalIsInjective(m: nat, n: nat)
    requires Decimal(m) == Decimal(n)
    ensures m == n
  {
    var s := Decimal(m);
    assert s[|s| - 1] == Digit(m % 10) && s[|s| - 1] == Digit(n % 10);
    if m >= 10 && n >= 10 {
      assert Decimal(m)[..|s| - 1] == Decimal(m / 10) && Decimal(n)[..|s| - 1] == Decimal(n / 10);
      DecimalIsInjective(m / 10, n / 10);
    }
  }

  function Numbered(base: string, n: nat): string {
    base + "_" + Decimal(n)
  }

  lemma NumberedIsInjective(base: string, m: nat, n: nat)
    requires Numbered(base, m) == Numbered(base, n)
    ensures m == n
  {
    var prefix := base + "_";
    assert Numbered(base, m)[|prefix|..] == Decimal(m) && Numbered(base, n)[|prefix|..] == Decimal(n);
    DecimalIsInjective(m, n);
  }

  /** The numbered names tried before number `n`. */
  ghost function Tried(base: string, n: nat): set<string> {
    set k: nat | 2 <= k < n :: Numbered(base, k)
  }

  ghost function Untried(base: string, taken: set<string>, n: nat): nat {
    |taken - Tried(base, n)|
  }

  lemma OneMoreTried(base: string, taken: set<string>, n: nat)
    requires n >= 2 && Numbered(base, n) in taken
    ensures Untried(base, taken, n + 1) < Untried(base, taken, n)
  {
    var name := Numbered(base, n);
    hide Numbered;
    forall k: nat | 2 <= k < n ensures Numbered(base, k) != name {
      if Numbered(base, k) == name {
        NumberedIsInjective(base, k, n);
      }
    }
    assert taken - Tried(base, n + 1) == (taken - Tried(base, n)) - {name};
  }

  /** The first free number from `n` on: the search ends because the numbered names are all different. */
  function FirstFree(base: string, taken: set<string>, n: nat): (free: nat)
    requires n >= 2
    ensures free >= n && Numbered(base, free) !in taken
    ensures forall k :: n <= k < free ==> Numbered(base, k) in taken
    decreases Untried(base, taken, n)
  {
    hide Numbered, Untried;
    if Numbered(base, n) in taken then
      OneMoreTried(base, taken, n);
      FirstFree(base, taken, n + 1)
    else n
  }

  function FreshName(base: string, taken: set<string>): (name: string)
    ensures name !in taken
    ensures base !in taken ==> name == base
  {
    if base in taken then Numbered(base, FirstFree(base, taken, 2)) else base
  }

  /** The search as the program runs it. */
  method SearchFreshName(base: string, taken: set<string>) returns (name: string)
    ensures name == FreshName(base, taken)
  {
    name := base;
    if base in taken {
      var suffix := 2;
      while Numbered(base, suffix) in taken
        invariant suffix >= 2 && FirstFree(base, taken, suffix) == FirstFree(base, taken, 2)
        decreases Untried(base, taken, suffix)
      {
        OneMoreTried(base, taken, suffix);
        suffix := suffix + 1;
      }
      name := Numbered(base, suffix);
    }
  }

  // ----- what the names look like

  function DigitValue(c: char): nat {
    if '0' <= c <= '9' then (c - '0') as nat else 0
  }

  function FromDecimal(s: string): nat {
    if s == "" then 0 else 10 * FromDecimal(s[..|s| - 1]) + DigitValue(s[|s| - 1])
  }

  lemma DigitReads(d: nat)
    requires d < 10
    ensures DigitValue(Digit(d)) == d && '0' <= Digit(d) <= '9' && (Digit(d) == '0' <==> d == 0)
  {}

  /** The suffix reads as its number, in decimal digits without leading zeros. */
  lemma {:induction false} DecimalReads(n: nat)
    ensures FromDecimal(Decimal(n)) == n
    ensures forall c :: c in Decimal(n) ==> '0' <= c <= '9'
    ensures Decimal(n)[0] == '0' ==> n == 0
  {
    hide Digit, DigitValue;
    DigitReads(n % 10);
    if n < 10 {
      assert Decimal(n)[..0] == "";
    } else {
      DecimalReads(n / 10);
      assert Decimal(n)[..|Decimal(n)| - 1] == Decimal(n / 10);
    }
  }

  /** A name that is taken gets the first free number from two on, behind an underscore. */
  lemma TakenNamesAreNumbered(base: string, taken: set<string>) returns (n: nat)
    requires base in taken
    ensures n >= 2 && FreshName(base, taken) == base + "_" + Decimal(n)
    ensures forall k :: 2 <= k < n ==> base + "_" + Decimal(k) in taken
  {
    n := FirstFree(base, taken, 2);
    forall k | 2 <= k < n ensures base + "_" + Decimal(k) in taken {
      assert Numbered(base, k) in taken;
    }
  }
}
