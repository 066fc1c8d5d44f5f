/**
 Machine readable zones (app/engines/providers/mrz.py): the check digits of
 ICAO Doc 9303 Part 3 section 4.9 over the TD3 layout of Part 4 section 4.2.2,
 and exactly which errors they miss.
 */
module Mrz {
  import opened Enums

  predicate IsDigit(c: char) { '0' <= c <= '9' }

  predicate IsLetter(c: char) { 'A' <= c <= 'Z' }

  /** The 37 characters a zone may hold. */
  predicate InAlphabet(c: char) { IsDigit(c) || IsLetter(c) || c == '<' }

  function Upper(c: char): char {
    if 'a' <= c <= 'z' then (c as int - 32) as char else c
  }

  function CharValue(c: char): int {
    if c == '<' then 0
    else if IsDigit(c) then c as int - '0' as int
    else Upper(c) as int - 55
  }

  function Weight(index: nat): int {
    if index % 3 == 0 then 7 else if index % 3 == 1 then 3 else 1
  }

  function Total(value: string): int {
    if value == "" then 0
    else Total(value[..|value| - 1]) + CharValue(value[|value| - 1]) * Weight(|value| - 1)
  }

  function CheckDigit(value: string): char {
    ('0' as int + Total(value) % 10) as char
  }

  const WIDTH := 44

  /** `line.ljust(44, "<")[:44]`. */
  function Padded(line: string): (padded: string)
    ensures |padded| == WIDTH
  {
    if |line| >= WIDTH then line[..WIDTH] else line + seq(WIDTH - |line|, _ => '<')
  }

  datatype Checks = Checks(documentNumber: bool, birthDate: bool, expiryDate: bool, composite: bool)

  function Composite(line: string): string
    requires |line| == WIDTH
  {
    line[0..10] + line[13..20] + line[21..43]
  }

  function ChecksOf(line: string): Checks
    requires |line| == WIDTH
  {
    Checks(
      CheckDigit(line[0..9]) == line[9],
      CheckDigit(line[13..19]) == line[19],
      CheckDigit(line[21..27]) == line[27],
      CheckDigit(Composite(line)) == line[43])
  }

  /** `checks_passed` of the second line. */
  predicate ChecksPassed(line2: string) {
    var checks := ChecksOf(Padded(line2));
    checks.documentNumber && checks.birthDate && checks.expiryDate && checks.composite
  }

  // ---- Check digits ---------------------------------------------------------

  lemma {:induction false} TotalUpdate(value: string, i: nat, c: char)
    requires i < |value|
    ensures Total(value[i := c]) == Total(value) + (CharValue(c) - CharValue(value[i])) * Weight(i)
  {
    var n := |value| - 1;
    var changed := value[i := c];
    if i < n {
      TotalUpdate(value[..n], i, c);
      assert changed[..n] == value[..n][i := c];
    } else {
      assert changed[..n] == value[..n];
      assert (CharValue(c) - CharValue(value[i])) * Weight(i) == CharValue(c) * Weight(i) - CharValue(value[i]) * Weight(i);
    }
  }

  lemma AddTens(x: int, a: int, b: int)
    requires x == 10 * a + b
    ensures x % 10 == b % 10
  {
  }

  lemma TimesSeven(d: int)
    ensures (7 * d) % 10 == 0 <==> d % 10 == 0
  {
    var q, r := d / 10, d % 10;
    AddTens(7 * d, 7 * q, 7 * r);
  }

  lemma TimesThree(d: int)
    ensures (3 * d) % 10 == 0 <==> d % 10 == 0
  {
    var q, r := d / 10, d % 10;
    AddTens(3 * d, 3 * q, 3 * r);
  }

  /** 7, 3 and 1 are units modulo 10: only a multiple of ten goes unnoticed. */
  lemma UnitWeights(d: int, i: nat)
    ensures (d * Weight(i)) % 10 == 0 <==> d % 10 == 0
  {
    if i % 3 == 0 {
      TimesSeven(d);
    } else if i % 3 == 1 {
      TimesThree(d);
    }
  }

  /** A check digit misses a substitution exactly when the two values agree modulo 10. */
  lemma SubstitutionMissed(value: string, i: nat, c: char)
    requires i < |value|
    ensures CheckDigit(value[i := c]) == CheckDigit(value) <==> CharValue(c) % 10 == CharValue(value[i]) % 10
  {
    TotalUpdate(value, i, c);
    UnitWeights(CharValue(c) - CharValue(value[i]), i);
    SameRemainder(Total(value[i := c]), Total(value));
    SameRemainder(CharValue(c), CharValue(value[i]));
  }

  lemma SameRemainder(x: int, y: int)
    ensures x % 10 == y % 10 <==> (x - y) % 10 == 0
  {
  }

  function Swap(value: string, i: nat): string
    requires i + 1 < |value|
  {
    value[i := value[i + 1]][i + 1 := value[i]]
  }

  /** The differences 4, 2 and -6 of neighbouring weights share only the factor 2 with 10. */
  lemma EvenDifference(d: int, k: int)
    requires k in {4, 2, -6}
    ensures (d * k) % 10 == 0 <==> d % 5 == 0
  {
    if k == 4 {
      TimesFour(d);
    } else if k == 2 {
      assert (2 * d) % 10 == 0 <==> d % 5 == 0;
    } else {
      TimesMinusSix(d);
    }
  }

  lemma TimesFour(d: int)
    ensures (4 * d) % 10 == 0 <==> d % 5 == 0
  {
    var q, r := d / 5, d % 5;
    AddTens(4 * d, 2 * q, 4 * r);
  }

  lemma TimesMinusSix(d: int)
    ensures (-6 * d) % 10 == 0 <==> d % 5 == 0
  {
    var q, r := d / 5, d % 5;
    AddTens(-6 * d, -3 * q, -6 * r);
  }

  lemma SwapWeights(d: int, i: nat)
    ensures (d * (Weight(i) - Weight(i + 1))) % 10 == 0 <==> d % 5 == 0
  {
    EvenDifference(d, Weight(i) - Weight(i + 1));
  }

  /** A check digit misses the swap of two neighbours exactly when they agree modulo 5. */
  lemma SwapMissed(value: string, i: nat)
    requires i + 1 < |value|
    ensures CheckDigit(Swap(value, i)) == CheckDigit(value) <==> CharValue(value[i]) % 5 == CharValue(value[i + 1]) % 5
  {
    var x, y := CharValue(value[i]), CharValue(value[i + 1]);
    TotalUpdate(value, i, value[i + 1]);
    TotalUpdate(value[i := value[i + 1]], i + 1, value[i]);
    SwapSum(x, y, Weight(i), Weight(i + 1));
    SwapWeights(y - x, i);
    SameRemainder(Total(Swap(value, i)), Total(value));
    SameRemainderFive(y, x);
  }

  lemma SwapSum(x: int, y: int, a: int, b: int)
    ensures (y - x) * a + (x - y) * b == (y - x) * (a - b)
  {
  }

  lemma SameRemainderFive(x: int, y: int)
    ensures x % 5 == y % 5 <==> (x - y) % 5 == 0
  {
  }

  // ---- Whole lines ----------------------------------------------------------

  /** Positions no check covers: nationality and sex. */
  predicate Unchecked(p: nat) { 10 <= p < 13 || p == 20 }

  /** Positions that enter a check as data. */
  predicate Data(p: nat) { p < 9 || 13 <= p < 19 || 21 <= p < 27 || 28 <= p < 43 }

  /** Index of a line position inside the composite string. */
  function CompositeIndex(p: nat): nat
    requires p < 43 && !Unchecked(p)
  {
    if p < 10 then p else if p < 20 then p - 3 else p - 4
  }

  lemma FieldUpdate(line: string, p: nat, c: char, from: nat, to: nat)
    requires p < |line| && from <= to <= |line|
    ensures line[p := c][from..to] == if from <= p < to then line[from..to][p - from := c] else line[from..to]
  {
  }

  lemma CompositeUpdate(line: string, p: nat, c: char)
    requires |line| == WIDTH && p < WIDTH
    ensures |Composite(line)| == 39
    ensures Composite(line[p := c]) ==
            if p < 43 && !Unchecked(p) then Composite(line)[CompositeIndex(p) := c] else Composite(line)
    ensures p < 43 && !Unchecked(p) ==> Composite(line)[CompositeIndex(p)] == line[p]
  {
    FieldUpdate(line, p, c, 0, 10);
    FieldUpdate(line, p, c, 13, 20);
    FieldUpdate(line, p, c, 21, 43);
  }

  lemma CompositeAfter(line: string, p: nat, c: char)
    requires |line| == WIDTH && p < 43 && ChecksOf(line).composite && c != line[p]
    ensures ChecksOf(line[p := c]).composite <==>
            Unchecked(p) || CharValue(c) % 10 == CharValue(line[p]) % 10
  {
    CompositeUpdate(line, p, c);
    if !Unchecked(p) {
      SubstitutionMissed(Composite(line), CompositeIndex(p), c);
    }
  }

  /** A field check after a change at `p`: outside, inside, or on the digit itself. */
  lemma FieldAfter(line: string, p: nat, c: char, from: nat, to: nat)
    requires |line| == WIDTH && p < WIDTH && from <= to < WIDTH && c != line[p]
    requires CheckDigit(line[from..to]) == line[to]
    ensures CheckDigit(line[p := c][from..to]) == line[p := c][to] <==>
            if from <= p < to then CharValue(c) % 10 == CharValue(line[p]) % 10 else p != to
  {
    FieldUpdate(line, p, c, from, to);
    if from <= p < to {
      SubstitutionMissed(line[from..to], p - from, c);
    }
  }

  /**
   Exact detection.  A single wrong character in a valid second line stays
   unnoticed exactly at nationality and sex, or at a data position where the old
   and the new value agree modulo 10; a changed check digit is always noticed.
   */
  lemma SingleErrorMissedExactly(line: string, p: nat, c: char)
    requires |line| == WIDTH && ChecksPassed(line)
    requires p < WIDTH && c != line[p]
    ensures ChecksPassed(line[p := c]) <==>
            Unchecked(p) || (Data(p) && CharValue(c) % 10 == CharValue(line[p]) % 10)
  {
    assert Padded(line) == line && Padded(line[p := c]) == line[p := c];
    FieldAfter(line, p, c, 0, 9);
    FieldAfter(line, p, c, 13, 19);
    FieldAfter(line, p, c, 21, 27);
    if p < 43 {
      CompositeAfter(line, p, c);
    } else {
      CompositeUpdate(line, p, c);
    }
  }

  /** Two neighbours of one data field. */
  predicate Neighbours(p: nat) { p < 8 || 13 <= p < 18 || 21 <= p < 26 || 28 <= p < 42 }

  lemma FieldSwap(line: string, p: nat, from: nat, to: nat)
    requires p + 1 < |line| && from <= to <= |line|
    requires (from <= p && p + 1 < to) || p + 1 < from || to <= p
    ensures Swap(line, p)[from..to] == if from <= p < to then Swap(line[from..to], p - from) else line[from..to]
  {
  }

  lemma CompositeSwap(line: string, p: nat)
    requires |line| == WIDTH && Neighbours(p)
    ensures var i := CompositeIndex(p);
            && i + 1 < |Composite(line)|
            && Composite(line)[i] == line[p] && Composite(line)[i + 1] == line[p + 1]
            && Composite(Swap(line, p)) == Swap(Composite(line), i)
  {
    FieldSwap(line, p, 0, 10);
    FieldSwap(line, p, 13, 20);
    FieldSwap(line, p, 21, 43);
  }

  /** A field check after a swap at `p`: outside, or inside the field. */
  lemma FieldAfterSwap(line: string, p: nat, from: nat, to: nat)
    requires |line| == WIDTH && Neighbours(p) && from <= to < WIDTH
    requires (from <= p && p + 1 < to) || p + 1 < from || to < p
    requires CheckDigit(line[from..to]) == line[to]
    ensures CheckDigit(Swap(line, p)[from..to]) == Swap(line, p)[to] <==>
            (from <= p < to ==> CharValue(line[p]) % 5 == CharValue(line[p + 1]) % 5)
  {
    FieldSwap(line, p, from, to);
    if from <= p < to {
      SwapMissed(line[from..to], p - from);
    }
  }

  /**
   A swap of two neighbours in a data field of a valid second line stays unnoticed
   exactly when their values agree modulo 5: the composite digit adds no protection.
   */
  lemma SwapMissedExactly(line: string, p: nat)
    requires |line| == WIDTH && ChecksPassed(line) && Neighbours(p)
    ensures ChecksPassed(Swap(line, p)) <==> CharValue(line[p]) % 5 == CharValue(line[p + 1]) % 5
  {
    assert Padded(line) == line && Padded(Swap(line, p)) == Swap(line, p);
    FieldAfterSwap(line, p, 0, 9);
    FieldAfterSwap(line, p, 13, 19);
    FieldAfterSwap(line, p, 21, 27);
    CompositeSwap(line, p);
    SwapMissed(Composite(line), CompositeIndex(p));
    assert Swap(line, p)[43] == line[43];
  }

  /** The alphabet by value modulo 10. */
  const CLASSES: seq<string> := ["<0AKU", "1BLV", "2CMW", "3DNX", "4EOY", "5FPZ", "6GQ", "7HR", "8IS", "9JT"]

  lemma MembersAgree(c: char, k: nat)
    requires k < |CLASSES| && c in CLASSES[k]
    ensures CharValue(c) % 10 == k
  {
  }

  lemma DigitOrFiller(c: char)
    requires IsDigit(c) || c == '<'
    ensures c in CLASSES[CharValue(c) % 10]
  {
  }

  lemma EarlyLetter(c: char)
    requires 'A' <= c <= 'M'
    ensures c in CLASSES[CharValue(c) % 10]
  {
  }

  lemma LateLetter(c: char)
    requires 'N' <= c <= 'Z'
    ensures c in CLASSES[CharValue(c) % 10]
  {
  }

  lemma ClassOf(c: char)
    requires InAlphabet(c)
    ensures c in CLASSES[CharValue(c) % 10]
  {
    if IsLetter(c) {
      if c <= 'M' {
        EarlyLetter(c);
      } else {
        LateLetter(c);
      }
    } else {
      DigitOrFiller(c);
    }
  }

  /** Two characters of the alphabet can replace each other unnoticed exactly within one class. */
  lemma ConfusableCharacters(c: char, d: char)
    requires InAlphabet(c) && InAlphabet(d)
    ensures CharValue(c) % 10 == CharValue(d) % 10 <==>
            exists k :: 0 <= k < |CLASSES| && c in CLASSES[k] && d in CLASSES[k]
  {
    ClassOf(c);
    ClassOf(d);
    if k :| 0 <= k < |CLASSES| && c in CLASSES[k] && d in CLASSES[k] {
      MembersAgree(c, k);
      MembersAgree(d, k);
    }
  }

  // ---- Finding the zone -----------------------------------------------------

  function Legal(line: string): (legal: string)
    ensures forall c :: c in legal ==> InAlphabet(c)
  {
    if line == "" then ""
    else
      Legal(line[..|line| - 1])
      + (if InAlphabet(Upper(line[|line| - 1])) then [Upper(line[|line| - 1])] else "")
  }

  /** Legal characters only, trimmed to the standard width. */
  function Normalize(line: string): (normal: string)
    ensures |normal| <= WIDTH && forall c :: c in normal ==> InAlphabet(c)
  {
    var legal := Legal(line);
    if |legal| > WIDTH then legal[..WIDTH] else legal
  }

  lemma {:induction false} LegalConcat(a: string, b: string)
    ensures Legal(a + b) == Legal(a) + Legal(b)
    decreases |b|
  {
    if b == "" {
      assert a + b == a;
    } else {
      LegalConcat(a, b[..|b| - 1]);
      assert (a + b)[..|a + b| - 1] == a + b[..|b| - 1];
    }
  }

  /** Every legal character is kept in its place among the legal ones, up to the width; nothing else is. */
  lemma NormalizeKeepsLegal(line: string, i: nat)
    requires i < |line|
    ensures var before := Legal(line[..i]);
            && |Legal(line[..i + 1])| == |before| + (if InAlphabet(Upper(line[i])) then 1 else 0)
            && |Normalize(line)| == (if |Legal(line)| > WIDTH then WIDTH else |Legal(line)|)
            && (InAlphabet(Upper(line[i])) && |before| < WIDTH ==>
                  |before| < |Normalize(line)| && Normalize(line)[|before|] == Upper(line[i]))
  {
    assert line[..i + 1][..i] == line[..i];
    assert line == line[..i + 1] + line[i + 1..];
    LegalConcat(line[..i + 1], line[i + 1..]);
  }

  /** Normalized lines of 30 to 44 characters, in order. */
  function Candidates(lines: seq<string>): (candidates: seq<string>)
    ensures forall line :: line in candidates ==> 30 <= |line| <= WIDTH && forall c :: c in line ==> InAlphabet(c)
  {
    if lines == [] then []
    else
      var last := Normalize(lines[|lines| - 1]);
      Candidates(lines[..|lines| - 1]) + (if |last| >= 30 then [last] else [])
  }

  predicate OpensZone(line: string) {
    |line| >= WIDTH || "P<" <= line || "I<" <= line
  }

  /** No candidate before `i` that has a successor opens a zone. */
  ghost predicate NoneBefore(candidates: seq<string>, i: nat) {
    forall j :: 0 <= j < i && j < |candidates| - 1 ==> !OpensZone(candidates[j])
  }

  ghost predicate FirstZone(candidates: seq<string>, i: nat, first: string, second: string) {
    && i + 1 < |candidates|
    && candidates[i] == first && candidates[i + 1] == second
    && OpensZone(first) && NoneBefore(candidates, i)
  }

  datatype Zone = Zone(first: string, second: string)

  /** The first candidate that opens a zone, with the candidate after it. */
  method FindMrz(lines: seq<string>) returns (found: Option<Zone>)
    ensures found.Some? ==> exists i: nat :: FirstZone(Candidates(lines), i, found.value.first, found.value.second)
    ensures found.None? ==> NoneBefore(Candidates(lines), |Candidates(lines)|)
  {
    var candidates := Candidates(lines);
    var i := 0;
    while i + 1 < |candidates|
      invariant 0 <= i && NoneBefore(candidates, i)
    {
      if OpensZone(candidates[i]) {
        assert FirstZone(candidates, i, candidates[i], candidates[i + 1]);
        return Some(Zone(candidates[i], candidates[i + 1]));
      }
      i := i + 1;
    }
    return None;
  }
}
