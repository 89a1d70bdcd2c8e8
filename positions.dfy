/** User-facing positions, internal indices and the "[pos] path" labels. */
module Positions {
  import opened Errors

  /** A fresh save is refused once the list holds this many paths. */
  const SavedPathsLimitP1: nat := 20

  /** Number of rows shown by the short listing. */
  const ShortListLinesLimit: nat := 5

  /** The positions the command line accepts: 1 up to, but excluding, the limit. */
  predicate ValidPos(pos: nat)
    ensures ValidPos(pos) ==> pos >= 1 && PosToId(pos) < SavedPathsLimitP1 - 1
  {
    1 <= pos < SavedPathsLimitP1
  }

  /** Position 1 is index 0. */
  function PosToId(pos: nat): (id: nat)
    requires pos >= 1
    ensures IdToPos(id) == pos
  {
    pos - 1
  }

  function IdToPos(id: nat): (pos: nat)
    ensures pos >= 1
  {
    id + 1
  }

  lemma IdPosRoundTrip(id: nat)
    ensures PosToId(IdToPos(id)) == id
  {
  }

  /** An optional position resolved to an index: an absent position selects the first entry. */
  function ResolveId(pos: Option<nat>): (id: nat)
    requires pos.Some? ==> pos.value >= 1
    ensures pos.None? ==> id == 0
    ensures pos.Some? ==> IdToPos(id) == pos.value
    ensures (pos.Some? ==> ValidPos(pos.value)) ==> id < SavedPathsLimitP1 - 1
  {
    match pos
    case None => 0
    case Some(p) => PosToId(p)
  }

  predicate IsDigit(c: char) {
    '0' <= c <= '9'
  }

  function Digit(d: nat): (c: char)
    requires d < 10
    ensures IsDigit(c)
  {
    (48 + d) as char
  }

  function DigitValue(c: char): (d: nat)
    requires IsDigit(c)
    ensures d < 10
  {
    c as int - 48
  }

  /** Decimal notation of a number, as the formatter writes an unsigned integer. */
  function Decimal(n: nat): (s: string)
    ensures |s| >= 1
    ensures forall i :: 0 <= i < |s| ==> IsDigit(s[i])
    ensures s[0] == '0' ==> n == 0
    decreases n
  {
    if n < 10 then [Digit(n)] else Decimal(n / 10) + [Digit(n % 10)]
  }

  /** The value of a string of decimal digits. */
  function DigitsValue(s: string): nat
    requires forall i :: 0 <= i < |s| ==> IsDigit(s[i])
  {
    if s == [] then 0 else DigitsValue(s[..|s| - 1]) * 10 + DigitValue(s[|s| - 1])
  }

  lemma {:induction false} DecimalRoundTrip(n: nat)
    ensures DigitsValue(Decimal(n)) == n
    decreases n
  {
    if n >= 10 {
      var d := Decimal(n / 10);
      var s := d + [Digit(n % 10)];
      assert s[..|s| - 1] == d;
      DecimalRoundTrip(n / 10);
    }
  }

  /** The label of an index: "[" position "]", the position in decimal without a leading zero. */
  function FmtId(id: nat): (s: string)
    ensures |s| >= 3 && s[0] == '[' && s[|s| - 1] == ']' && s[1] != '0'
    ensures forall i :: 1 <= i < |s| - 1 ==> IsDigit(s[i])
    ensures DigitsValue(s[1..|s| - 1]) == IdToPos(id)
  {
    var d := Decimal(IdToPos(id));
    DecimalRoundTrip(IdToPos(id));
    assert ("[" + d + "]")[1..|d| + 1] == d;
    "[" + d + "]"
  }

  /** A labelled path: "[" position "] " path. */
  function FmtPath(id: nat, path: string): string {
    FmtId(id) + " " + path
  }

  /** Length of the leading run of digits. */
  function DigitRun(s: string): (n: nat)
    ensures n <= |s|
    ensures forall i :: 0 <= i < n ==> IsDigit(s[i])
    ensures n < |s| ==> !IsDigit(s[n])
  {
    if s == [] || !IsDigit(s[0]) then 0 else 1 + DigitRun(s[1..])
  }

  /** Reads a labelled path back: the index and the text after "[pos] ". */
  function ParseRow(s: string): Option<(nat, string)> {
    if |s| == 0 || s[0] != '[' then None
    else
      var n := DigitRun(s[1..]);
      if n == 0 || |s| < n + 3 || s[n + 1] != ']' || s[n + 2] != ' ' then None
      else
        var pos := DigitsValue(s[1..n + 1]);
        if pos == 0 then None else Some((pos - 1, s[n + 3..]))
  }

  lemma {:induction false} DigitRunOfDigits(d: string, t: string)
    requires forall i :: 0 <= i < |d| ==> IsDigit(d[i])
    requires t != [] && !IsDigit(t[0])
    ensures DigitRun(d + t) == |d|
    decreases |d|
  {
    if d != [] {
      assert (d + t)[1..] == d[1..] + t;
      DigitRunOfDigits(d[1..], t);
    } else {
      assert d + t == t;
    }
  }

  /** Every labelled path reads back as the same index and the same path. */
  lemma FmtPathRoundTrip(id: nat, path: string)
    ensures ParseRow(FmtPath(id, path)) == Some((id, path))
  {
    var l := FmtId(id);
    var d := l[1..|l| - 1];
    var s := FmtPath(id, path);
    assert l == "[" + d + "]";
    assert s[1..] == d + ("] " + path);
    DigitRunOfDigits(d, "] " + path);
    assert s[1..|d| + 1] == d;
    assert s[|d| + 3..] == path;
  }
}
