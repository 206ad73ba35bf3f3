/** How the atomic model decides how many electrons sit in each shell: the
    fill by atomic number, the parser for configuration strings such as
    "[Ar] 3d10 4s1", and the choice between the two. */
module ElectronConfig {
  import opened Collections
  import opened Text
  import opened Elements

  /** Electrons per shell, keyed by shell number. */
  type ShellMap = map<nat, nat>

  /** Shell numbers come from a single decimal digit. */
  predicate DigitKeyed(m: ShellMap) {
    forall k :: k in m ==> k <= 9
  }

  function Min(a: int, b: int): int {
    if a <= b then a else b
  }

  // ---------------------------------------------------------------------
  // Fill by atomic number

  /** `shellCapacities`, indexed by shell number (index 0 is unused). */
  const ShellCapacities: seq<nat> := [0, 2, 8, 18, 32, 32, 18, 8]

  /** The capacity of shell `k`; shells outside 1..7 are never filled. */
  function Capacity(k: int): nat {
    if 1 <= k <= 7 then ShellCapacities[k] else 0
  }

  /** `Below[k]`: total capacity of the shells numbered below `k`, for k in 0..8. */
  const Below: seq<nat> := [0, 0, 2, 10, 28, 60, 92, 110, 118]

  /** Total capacity of the shells numbered below `k`. */
  function CapacityBelow(k: int): nat {
    if k <= 1 then 0 else if k >= 8 then 118 else Below[k]
  }

  /** All seven shells together hold 118 electrons. */
  const MaxElectrons: nat := 118

  /** The fill loop from `shell` on, with `remaining` electrons still to place. */
  function FillFrom(shell: nat, remaining: int): (m: ShellMap)
    requires 1 <= shell <= 8
    ensures forall k :: k in m ==> shell <= k <= 7
    ensures |m| == 0 <==> shell > 7 || remaining <= 0
    ensures shell > 7 || remaining <= 0 ==> m == map[]
    decreases 8 - shell
  {
    if shell > 7 || remaining <= 0 then map[]
    else
      var placed := Min(remaining, Capacity(shell));
      var rest := FillFrom(shell + 1, remaining - placed);
      rest[shell := placed]
  }

  /** Shell `k` is filled from `shell` on exactly when it is one of
      `shell`..7 and the shells from `shell` up to `k` do not use up
      `remaining`. */
  lemma {:induction false} FillFromHas(shell: nat, remaining: int, k: int)
    requires 1 <= shell <= 8
    ensures k in FillFrom(shell, remaining) <==>
      shell <= k <= 7 && CapacityBelow(k) - CapacityBelow(shell) < remaining
    decreases 8 - shell
  {
    if shell <= 7 && remaining > 0 {
      var r := remaining - Min(remaining, Capacity(shell));
      FillFromHas(shell + 1, r, k);
      FillHasStep(shell, remaining, k, r);
    } else {
      FillHasDone(shell, remaining, k);
    }
  }

  lemma FillHasStep(shell: nat, remaining: int, k: int, r: int)
    requires 1 <= shell <= 7 && remaining > 0 && r == remaining - Min(remaining, Capacity(shell))
    requires k in FillFrom(shell + 1, r) <==>
      shell + 1 <= k <= 7 && CapacityBelow(k) - CapacityBelow(shell + 1) < r
    ensures k in FillFrom(shell, remaining) <==>
      shell <= k <= 7 && CapacityBelow(k) - CapacityBelow(shell) < remaining
  {
    var placed := Min(remaining, Capacity(shell));
    var rest := FillFrom(shell + 1, r);
    FillFromUnfold(shell, remaining);
    assert remaining <= Capacity(shell) ==> rest == map[];
    CapacityBelowSteps(shell, k);
    HasArith(shell, k, remaining, placed, Capacity(shell),
      CapacityBelow(shell), CapacityBelow(shell + 1), CapacityBelow(k), k in rest);
  }

  /** The arithmetic of one turn of the fill, with the capacities as plain numbers. */
  lemma HasArith(shell: int, k: int, remaining: int, placed: int, cap: int,
                 below: int, belowNext: int, belowK: int, inRest: bool)
    requires placed == Min(remaining, cap) && cap > 0 && belowNext == below + cap
    requires shell < k ==> belowNext <= belowK
    requires k == shell ==> belowK == below
    requires 1 <= shell <= 7 && remaining > 0
    requires inRest <==> shell + 1 <= k <= 7 && belowK - belowNext < remaining - placed
    requires remaining <= cap ==> !inRest
    ensures (k == shell || inRest) <==> shell <= k <= 7 && belowK - below < remaining
  {
  }

  lemma FillHasDone(shell: nat, remaining: int, k: int)
    requires 1 <= shell <= 8
    requires shell > 7 || remaining <= 0
    ensures k in FillFrom(shell, remaining) <==>
      shell <= k <= 7 && CapacityBelow(k) - CapacityBelow(shell) < remaining
  {
    if shell <= k {
      CapacityBelowMonotone(shell, k);
    }
  }

  /** What the fill from `shell` puts in shell `k`: whatever is left after
      the shells from `shell` up to `k` are full, capped at `k`'s capacity. */
  lemma {:induction false} FillFromValue(shell: nat, remaining: int, k: int)
    requires 1 <= shell <= 8
    ensures k in FillFrom(shell, remaining) ==>
      FillFrom(shell, remaining)[k] == Min(Capacity(k), remaining - (CapacityBelow(k) - CapacityBelow(shell)))
    decreases 8 - shell
  {
    if shell <= 7 && remaining > 0 && k != shell {
      var r := remaining - Min(remaining, Capacity(shell));
      FillFromValue(shell + 1, r, k);
      FillValueStep(shell, remaining, k, r);
    }
  }

  lemma FillValueStep(shell: nat, remaining: int, k: int, r: int)
    requires 1 <= shell <= 7 && remaining > 0 && k != shell && r == remaining - Min(remaining, Capacity(shell))
    requires k in FillFrom(shell + 1, r) ==>
      FillFrom(shell + 1, r)[k] == Min(Capacity(k), r - (CapacityBelow(k) - CapacityBelow(shell + 1)))
    ensures k in FillFrom(shell, remaining) ==>
      FillFrom(shell, remaining)[k] == Min(Capacity(k), remaining - (CapacityBelow(k) - CapacityBelow(shell)))
  {
    var placed := Min(remaining, Capacity(shell));
    var rest := FillFrom(shell + 1, remaining - placed);
    FillFromUnfold(shell, remaining);
    assert remaining <= Capacity(shell) ==> rest == map[];
    CapacityBelowStep(shell);
  }

  lemma FillFromUnfold(shell: nat, remaining: int)
    requires 1 <= shell <= 7 && remaining > 0
    ensures FillFrom(shell, remaining) ==
      FillFrom(shell + 1, remaining - Min(remaining, Capacity(shell)))[shell := Min(remaining, Capacity(shell))]
  {
  }

  lemma CapacityBelowStep(k: int)
    ensures CapacityBelow(k + 1) == CapacityBelow(k) + Capacity(k)
  {
    if k == 1 { assert Below[2] == 2; }
    else if k == 2 { assert Below[3] == Below[2] + ShellCapacities[2]; }
    else if k == 3 { assert Below[4] == Below[3] + ShellCapacities[3]; }
    else if k == 4 { assert Below[5] == Below[4] + ShellCapacities[4]; }
    else if k == 5 { assert Below[6] == Below[5] + ShellCapacities[5]; }
    else if k == 6 { assert Below[7] == Below[6] + ShellCapacities[6]; }
    else if k == 7 { assert Below[7] + ShellCapacities[7] == 118; }
  }

  /** Each shell adds its capacity to the running total, which never decreases. */
  lemma CapacityBelowSteps(shell: int, k: int)
    requires 1 <= shell <= 7
    ensures CapacityBelow(shell + 1) == CapacityBelow(shell) + Capacity(shell)
    ensures Capacity(shell) > 0
    ensures shell < k ==> CapacityBelow(shell + 1) <= CapacityBelow(k)
  {
    CapacityBelowStep(shell);
    assert ShellCapacities[shell] > 0;
    if shell < k {
      CapacityBelowMonotone(shell + 1, k);
    }
  }

  /** `getElectronShellsByNumber(n)`. */
  function ShellsByNumber(n: int): (m: ShellMap)
    ensures forall k :: k in m ==> 1 <= k <= 7
    ensures |m| == 0 <==> n <= 0
  {
    FillFrom(1, n)
  }

  /** Shell k of the fill holds what is left once the shells below it are
      full, capped at its capacity; it is present exactly when something is left. */
  lemma ByNumberAt(n: int, k: int)
    ensures k in ShellsByNumber(n) <==> 1 <= k <= 7 && CapacityBelow(k) < n
    ensures k in ShellsByNumber(n) ==> ShellsByNumber(n)[k] == Min(Capacity(k), n - CapacityBelow(k))
  {
    FillFromHas(1, n, k);
    FillFromValue(1, n, k);
  }

  /** Sum of the counts of the shells numbered below `k`. */
  function SumBelow(m: ShellMap, k: nat): nat {
    if k == 0 then 0 else SumBelow(m, k - 1) + (if k - 1 in m then m[k - 1] else 0)
  }

  /** Electrons in all shells of a digit-keyed map. */
  function Total(m: ShellMap): nat {
    SumBelow(m, 10)
  }

  lemma {:induction false} ByNumberPrefixSum(n: int, k: nat)
    requires 0 <= n && k <= 10
    ensures SumBelow(ShellsByNumber(n), k) == Min(n, CapacityBelow(k))
  {
    if k > 0 {
      ByNumberPrefixSum(n, k - 1);
      PrefixSumStep(n, k);
    }
  }

  /** One more shell in the running sum of the fill. */
  lemma PrefixSumStep(n: int, k: nat)
    requires 0 <= n && 0 < k <= 10
    requires SumBelow(ShellsByNumber(n), k - 1) == Min(n, CapacityBelow(k - 1))
    ensures SumBelow(ShellsByNumber(n), k) == Min(n, CapacityBelow(k))
  {
    ByNumberAt(n, k - 1);
    CapacityBelowStep(k - 1);
    var m := ShellsByNumber(n);
    var here := if k - 1 in m then m[k - 1] else 0;
    assert SumBelow(m, k) == SumBelow(m, k - 1) + here;
    var below := CapacityBelow(k - 1);
    assert CapacityBelow(k) == below + Capacity(k - 1);
    if k - 1 in m {
      assert below < n;
      assert here == Min(Capacity(k - 1), n - below);
      assert SumBelow(m, k) == below + here;
    } else if below < n {
      assert Capacity(k - 1) == 0;
      assert here == 0;
      assert SumBelow(m, k - 1) == below;
    } else {
      assert SumBelow(m, k) == n;
    }
  }

  lemma {:induction false} CapacityBelowMonotone(j: int, k: int)
    requires j <= k
    ensures CapacityBelow(j) <= CapacityBelow(k)
    decreases k - j
  {
    if j < k {
      CapacityBelowMonotone(j, k - 1);
      CapacityBelowStep(k - 1);
    }
  }

  /** The shape of the fill: keys run 1, 2, .. without gaps, no shell is
      empty or over capacity, and every shell but the outermost is full. */
  lemma ByNumberShape(n: int)
    ensures forall j, k :: 1 <= j <= k && k in ShellsByNumber(n) ==> j in ShellsByNumber(n)
    ensures forall k :: k in ShellsByNumber(n) ==> 0 < ShellsByNumber(n)[k] <= Capacity(k)
    ensures forall k :: k in ShellsByNumber(n) && k + 1 in ShellsByNumber(n) ==>
      ShellsByNumber(n)[k] == Capacity(k)
  {
    ByNumberNoGaps(n);
    ByNumberBounded(n);
    ByNumberInnerFull(n);
  }

  lemma ByNumberNoGaps(n: int)
    ensures forall j, k :: 1 <= j <= k && k in ShellsByNumber(n) ==> j in ShellsByNumber(n)
  {
    var m := ShellsByNumber(n);
    forall j, k | 1 <= j <= k && k in m ensures j in m {
      ByNumberAt(n, j);
      ByNumberAt(n, k);
      CapacityBelowMonotone(j, k);
    }
  }

  lemma ByNumberBounded(n: int)
    ensures forall k :: k in ShellsByNumber(n) ==> 0 < ShellsByNumber(n)[k] <= Capacity(k)
  {
    var m := ShellsByNumber(n);
    forall k | k in m ensures 0 < m[k] <= Capacity(k) {
      ByNumberAt(n, k);
    }
  }

  lemma ByNumberInnerFull(n: int)
    ensures forall k :: k in ShellsByNumber(n) && k + 1 in ShellsByNumber(n) ==>
      ShellsByNumber(n)[k] == Capacity(k)
  {
    var m := ShellsByNumber(n);
    forall k | k in m && k + 1 in m ensures m[k] == Capacity(k) {
      ByNumberAt(n, k);
      ByNumberAt(n, k + 1);
      CapacityBelowStep(k);
    }
  }

  /** The fill places min(n, 118) electrons in all, none when n <= 0. */
  lemma ByNumberTotal(n: int)
    ensures Total(ShellsByNumber(n)) == if n <= 0 then 0 else Min(n, MaxElectrons)
  {
    if n <= 0 {
      assert ShellsByNumber(n) == FillFrom(1, n) == map[] == FillFrom(1, 0) == ShellsByNumber(0);
      ByNumberPrefixSum(0, 10);
    } else {
      ByNumberPrefixSum(n, 10);
    }
  }

  /** Sodium: 2, 8, 1. */
  lemma SodiumByNumber()
    ensures ShellsByNumber(11) == map[1 := 2, 2 := 8, 3 := 1]
  {
    assert Capacity(1) == 2 && Capacity(2) == 8 && Capacity(3) == 18;
    FillFromUnfold(1, 11);
    FillFromUnfold(2, 9);
    FillFromUnfold(3, 1);
    assert FillFrom(4, 0) == map[];
  }

  // ---------------------------------------------------------------------
  // The noble-gas prefix

  /** The spelled-out configurations of the noble gases; each one extends
      the one before. */
  const HeTerms: seq<string> := ["1s2"]
  const NeTerms: seq<string> := HeTerms + ["2s2", "2p6"]
  const ArTerms: seq<string> := NeTerms + ["3s2", "3p6"]
  const KrTerms: seq<string> := ArTerms + ["4s2", "3d10", "4p6"]
  const XeTerms: seq<string> := KrTerms + ["5s2", "4d10", "5p6"]
  const RnTerms: seq<string> := XeTerms + ["6s2", "4f14", "5d10", "6p6"]

  /** The terms a bracketed noble-gas symbol stands for; any other symbol
      stands for none. */
  function NobleGasTerms(symbol: string): seq<string> {
    if symbol == "He" then HeTerms
    else if symbol == "Ne" then NeTerms
    else if symbol == "Ar" then ArTerms
    else if symbol == "Kr" then KrTerms
    else if symbol == "Xe" then XeTerms
    else if symbol == "Rn" then RnTerms
    else []
  }

  /** `baseConfig`: the spelled-out configuration, terms separated by one
      space ("1s2 2s2 2p6" for Ne), or "" for an unknown symbol. */
  function NobleGasCore(symbol: string): string {
    var ts := NobleGasTerms(symbol);
    if |ts| == 0 then "" else Join(ts, ' ')
  }

  predicate IsNobleGas(symbol: string) {
    symbol in ["He", "Ne", "Ar", "Kr", "Xe", "Rn"]
  }

  /** From `j` on, the text reaches a ']' at `close` with no ']' and no line
      terminator before it (`.` does not match a line terminator). */
  predicate ReachesClose(s: string, j: int, close: int) {
    0 <= j <= close < |s| && s[close] == ']'
    && forall k :: j <= k < close ==> s[k] != ']' && !IsLineTerminator(s[k])
  }

  /** `/\[(.*?)\]/` matches from `open` to `close`: a '[' and the first ']'
      after it, with no line terminator in between. */
  predicate Closes(s: string, open: int, close: int) {
    0 <= open < |s| && s[open] == '[' && ReachesClose(s, open + 1, close)
  }

  /** Index of the first ']' at or after `j`, unless a line terminator comes first. */
  function CloseFrom(s: string, j: nat): (r: Option<nat>)
    ensures r.Some? ==> ReachesClose(s, j, r.value)
    ensures r.None? ==> forall c :: !ReachesClose(s, j, c)
    decreases |s| - j
  {
    if j >= |s| then None
    else if s[j] == ']' then Some(j)
    else if IsLineTerminator(s[j]) then None
    else
      assert forall c :: ReachesClose(s, j, c) ==> ReachesClose(s, j + 1, c);
      CloseFrom(s, j + 1)
  }

  /** The leftmost match of `/\[(.*?)\]/` searching from `i`. */
  function BracketFrom(s: string, i: nat): (r: Option<(nat, nat)>)
    ensures r.Some? ==> i <= r.value.0 && Closes(s, r.value.0, r.value.1)
    ensures r.Some? ==> forall o, c :: i <= o < r.value.0 ==> !Closes(s, o, c)
    ensures r.None? ==> forall o, c :: i <= o ==> !Closes(s, o, c)
    decreases |s| - i
  {
    if i >= |s| then None
    else if s[i] == '[' && CloseFrom(s, i + 1).Some? then Some((i, CloseFrom(s, i + 1).value))
    else BracketFrom(s, i + 1)
  }

  /** `config.match(/\[(.*?)\]/)`: the positions of the bracket pair. */
  function BracketMatch(s: string): (r: Option<(nat, nat)>)
    ensures r.Some? ==> Closes(s, r.value.0, r.value.1)
    ensures r.Some? ==> forall o, c :: o < r.value.0 ==> !Closes(s, o, c)
    ensures r.None? <==> forall o, c :: !Closes(s, o, c)
  {
    BracketFrom(s, 0)
  }

  /** Replaces the first bracketed symbol, and at most one whitespace
      character after it, by the symbol's expansion placed in front:
      `baseConfig + " " + config.replace(/\[.*?\]\s?/, "")`. */
  function ExpandNobleGas(s: string): string {
    match BracketMatch(s)
    case None => s
    case Some((open, close)) => Splice(s, open, close, NobleGasCore(s[open + 1..close]))
  }

  /** `s` with the bracket pair at `open`..`close`, and at most one
      whitespace character after it, cut out and `core` and a space put in front. */
  function Splice(s: string, open: nat, close: nat, core: string): string
    requires open < close < |s|
  {
    var cut := if close + 1 < |s| && IsSpace(s[close + 1]) then close + 2 else close + 1;
    core + " " + s[..open] + s[cut..]
  }

  /** `fullConfig.trim().split(/\s+/)`: the maximal runs of non-whitespace,
      or the single empty string when there are none. */
  function ConfigParts(s: string): (ps: seq<string>)
    ensures |ps| > 0
  {
    var ts := Tokens(s);
    if |ts| == 0 then [""] else ts
  }

  // ---------------------------------------------------------------------
  // Orbital terms

  predicate IsOrbitalLetter(c: char) {
    c == 's' || c == 'p' || c == 'd' || c == 'f'
  }

  /** `/^(\d[spdf])(\d+)$/`: a digit, an orbital letter and a count. */
  predicate IsOrbitalTerm(t: string) {
    |t| >= 3 && IsDigit(t[0]) && IsOrbitalLetter(t[1]) && AllDigits(t[2..])
  }

  /** The `shellMap` table of orbital names. */
  function ShellTable(orbital: string): Option<nat> {
    if orbital == "1s" then Some(1)
    else if orbital == "2s" || orbital == "2p" then Some(2)
    else if orbital == "3s" || orbital == "3p" || orbital == "3d" then Some(3)
    else if orbital == "4s" || orbital == "4p" || orbital == "4d" || orbital == "4f" then Some(4)
    else if orbital == "5s" || orbital == "5p" || orbital == "5d" || orbital == "5f" then Some(5)
    else if orbital == "6s" || orbital == "6p" || orbital == "6d" then Some(6)
    else if orbital == "7s" || orbital == "7p" then Some(7)
    else None
  }

  /** `shellMap[orbital] || Number.parseInt(orbital[0])`. */
  function TermShell(t: string): nat
    requires IsOrbitalTerm(t)
  {
    match ShellTable(t[..2])
    case Some(v) => v
    case None => DigitValue(t[0])
  }

  /** Every entry of the table names the shell of its leading digit, so a
      term always goes to the shell its first character names. */
  lemma TermShellIsLeadingDigit(t: string)
    requires IsOrbitalTerm(t)
    ensures TermShell(t) == DigitValue(t[0])
  {
    var o := t[..2];
    assert o[0] == t[0];
  }

  /** `Number.parseInt(match[2])`. */
  function TermCount(t: string): nat
    requires IsOrbitalTerm(t)
  {
    ParseDigits(t[2..])
  }

  /** One turn of the loop over the parts: a matching term adds its count
      to its shell (the source's `if (shells[shell])` either adds to a
      non-zero entry or overwrites a missing or zero one, which is the same
      thing); any other part is skipped. */
  function AddTerm(shells: ShellMap, t: string): (r: ShellMap)
    ensures !IsOrbitalTerm(t) ==> r == shells
    ensures IsOrbitalTerm(t) ==>
      r == shells[DigitValue(t[0]) := (if DigitValue(t[0]) in shells then shells[DigitValue(t[0])] else 0) + TermCount(t)]
  {
    if !IsOrbitalTerm(t) then shells
    else
      var shell := TermShell(t);
      TermShellIsLeadingDigit(t);
      if shell in shells && shells[shell] != 0 then shells[shell := shells[shell] + TermCount(t)]
      else shells[shell := TermCount(t)]
  }

  /** The loop over all parts, left to right. */
  function Tally(ts: seq<string>): ShellMap
    decreases |ts|
  {
    if |ts| == 0 then map[] else AddTerm(Tally(ts[..|ts| - 1]), ts[|ts| - 1])
  }

  /** `t` is a term for shell `d`. */
  predicate NamesShell(t: string, d: nat) {
    IsOrbitalTerm(t) && DigitValue(t[0]) == d
  }

  /** Reference definition: the counts of the terms for shell `d`, summed. */
  function ShellSum(ts: seq<string>, d: nat): nat
    decreases |ts|
  {
    if |ts| == 0 then 0
    else ShellSum(ts[..|ts| - 1], d) + (if NamesShell(ts[|ts| - 1], d) then TermCount(ts[|ts| - 1]) else 0)
  }

  /** The tally has a key for exactly the shells some term names, and each
      holds the sum of the counts of the terms naming it; every other part
      is ignored. */
  lemma {:induction false} TallyIsShellSum(ts: seq<string>)
    ensures DigitKeyed(Tally(ts))
    ensures forall d :: d in Tally(ts) <==> exists i :: 0 <= i < |ts| && NamesShell(ts[i], d)
    ensures forall d :: d in Tally(ts) ==> Tally(ts)[d] == ShellSum(ts, d)
    decreases |ts|
  {
    if |ts| > 0 {
      var init := ts[..|ts| - 1];
      var t := ts[|ts| - 1];
      TallyIsShellSum(init);
      forall d ensures d in Tally(ts) <==> exists i :: 0 <= i < |ts| && NamesShell(ts[i], d) {
        if d in Tally(ts) {
          if d in Tally(init) {
            var i :| 0 <= i < |init| && NamesShell(init[i], d);
            assert ts[i] == init[i];
          } else {
            assert NamesShell(ts[|ts| - 1], d);
          }
        }
        if exists i :: 0 <= i < |ts| && NamesShell(ts[i], d) {
          var i :| 0 <= i < |ts| && NamesShell(ts[i], d);
          if i < |init| {
            assert NamesShell(init[i], d);
          }
        }
      }
      forall d | d in Tally(ts) ensures Tally(ts)[d] == ShellSum(ts, d) {
        if d !in Tally(init) {
          assert ShellSum(init, d) == 0 by {
            ShellSumZero(init, d);
          }
        }
      }
    }
  }

  /** A shell no term names sums to nothing. */
  lemma {:induction false} ShellSumZero(ts: seq<string>, d: nat)
    requires forall i :: 0 <= i < |ts| ==> !NamesShell(ts[i], d)
    ensures ShellSum(ts, d) == 0
    decreases |ts|
  {
    if |ts| > 0 {
      ShellSumZero(ts[..|ts| - 1], d);
    }
  }

  lemma {:induction false} ShellSumAppend(a: seq<string>, b: seq<string>, d: nat)
    ensures ShellSum(a + b, d) == ShellSum(a, d) + ShellSum(b, d)
    decreases |b|
  {
    if |b| > 0 {
      var b' := b[..|b| - 1];
      assert (a + b)[..|a + b| - 1] == a + b';
      assert (a + b)[|a + b| - 1] == b[|b| - 1];
      ShellSumAppend(a, b', d);
    } else {
      assert a + b == a;
    }
  }

  /** The per-shell sums only see the multiset of parts. */
  lemma {:induction false} ShellSumPermutation(ts: seq<string>, us: seq<string>, d: nat)
    requires multiset(ts) == multiset(us)
    ensures ShellSum(ts, d) == ShellSum(us, d)
    decreases |ts|
  {
    assert |ts| == |multiset(ts)| == |us|;
    if |ts| > 0 {
      var t := ts[|ts| - 1];
      assert t in multiset(us);
      var k :| 0 <= k < |us| && us[k] == t;
      var rest := us[..k] + us[k + 1..];
      DropLast(ts, d);
      DropAt(us, k, d);
      ShellSumPermutation(ts[..|ts| - 1], rest, d);
    }
  }

  /** Taking off the last part takes it out of the multiset and the sum. */
  lemma DropLast(ts: seq<string>, d: nat)
    requires |ts| > 0
    ensures multiset(ts[..|ts| - 1]) == multiset(ts) - multiset{ts[|ts| - 1]}
    ensures ShellSum(ts, d) == ShellSum(ts[..|ts| - 1], d) + ShellSum([ts[|ts| - 1]], d)
  {
    var init, t := ts[..|ts| - 1], ts[|ts| - 1];
    assert ts == init + [t];
    ShellSumAppend(init, [t], d);
  }

  /** Taking out the part at `k` takes it out of the multiset and the sum. */
  lemma DropAt(us: seq<string>, k: nat, d: nat)
    requires k < |us|
    ensures multiset(us[..k] + us[k + 1..]) == multiset(us) - multiset{us[k]}
    ensures ShellSum(us, d) == ShellSum(us[..k] + us[k + 1..], d) + ShellSum([us[k]], d)
  {
    var t := us[k];
    assert us == us[..k] + [t] + us[k + 1..];
    ShellSumAppend(us[..k] + [t], us[k + 1..], d);
    ShellSumAppend(us[..k], [t], d);
    ShellSumAppend(us[..k], us[k + 1..], d);
  }

  /** Reordering the parts does not change the tally. */
  lemma TallyOrderIndependent(ts: seq<string>, us: seq<string>)
    requires multiset(ts) == multiset(us)
    ensures Tally(ts) == Tally(us)
  {
    TallyIsShellSum(ts);
    TallyIsShellSum(us);
    forall d ensures d in Tally(ts) <==> d in Tally(us) {
      if exists i :: 0 <= i < |ts| && NamesShell(ts[i], d) {
        var i :| 0 <= i < |ts| && NamesShell(ts[i], d);
        assert ts[i] in multiset(us);
        var j :| 0 <= j < |us| && us[j] == ts[i];
      }
      if exists j :: 0 <= j < |us| && NamesShell(us[j], d) {
        var j :| 0 <= j < |us| && NamesShell(us[j], d);
        assert us[j] in multiset(ts);
        var i :| 0 <= i < |ts| && ts[i] == us[j];
      }
    }
    forall d | d in Tally(ts) ensures Tally(ts)[d] == Tally(us)[d] {
      ShellSumPermutation(ts, us, d);
    }
    assert Tally(ts).Keys == Tally(us).Keys;
  }

  // ---------------------------------------------------------------------
  // Parsing and resolving

  /** `atomicNumber || 1`. */
  function OrOne(n: int): int {
    if n == 0 then 1 else n
  }

  /** The parts of a configuration string after the noble-gas expansion. */
  function PartsOf(s: string): seq<string> {
    ConfigParts(ExpandNobleGas(s))
  }

  /** `parseElectronConfiguration(config, atomicNumber)`: the tally of the
      parts, or the fill for `atomicNumber || 1` when there is no string or
      the tally is empty. */
  function Parse(config: Option<string>, atomicNumber: int): (r: ShellMap)
  {
    if config.None? || config.value == "" then ShellsByNumber(OrOne(atomicNumber))
    else
      var shells := Tally(PartsOf(config.value));
      if |shells| == 0 then ShellsByNumber(OrOne(atomicNumber)) else shells
  }

  /** The parsed map is keyed by digits, and it is empty only for a negative
      atomic number with nothing parseable (0 is read as 1). */
  lemma ParseShape(config: Option<string>, atomicNumber: int)
    ensures DigitKeyed(Parse(config, atomicNumber))
    ensures |Parse(config, atomicNumber)| == 0 ==> atomicNumber < 0
  {
    ByNumberShape(OrOne(atomicNumber));
    if config.Some? && config.value != "" {
      TallyIsShellSum(PartsOf(config.value));
    }
  }

  /** Without a configuration string, or with one in which no part is an
      orbital term, the result is the fill for `atomicNumber || 1`. */
  lemma ParseFallsBackToFill(config: Option<string>, atomicNumber: int)
    requires config.Some? ==>
      forall i :: 0 <= i < |PartsOf(config.value)| ==> !IsOrbitalTerm(PartsOf(config.value)[i])
    ensures Parse(config, atomicNumber) == ShellsByNumber(OrOne(atomicNumber))
  {
    if config.Some? && config.value != "" {
      var ps := PartsOf(config.value);
      TallyIsShellSum(ps);
      assert forall d :: d !in Tally(ps);
      assert Tally(ps) == map[];
    }
  }

  lemma EmptyConfigParts()
    ensures PartsOf("") == [""]
  {
    assert BracketMatch("").None?;
  }

  /** When some part is an orbital term, the result is the tally. */
  lemma ParseUsesTally(s: string, atomicNumber: int)
    requires exists t :: t in PartsOf(s) && IsOrbitalTerm(t)
    ensures Parse(Some(s), atomicNumber) == Tally(PartsOf(s))
  {
    var ps := PartsOf(s);
    var t :| t in ps && IsOrbitalTerm(t);
    var i :| 0 <= i < |ps| && ps[i] == t;
    TallyIsShellSum(ps);
    assert NamesShell(ps[i], DigitValue(t[0]));
    var m := Tally(ps);
    assert DigitValue(t[0]) in m;
    assert |m| != 0 by {
      assert m.Keys != {};
    }
    EmptyConfigParts();
    assert s != "";
    assert Parse(Some(s), atomicNumber) == m;
  }

  /** A string without '[' is not rewritten. */
  lemma NoBracketNoExpansion(s: string)
    requires '[' !in s
    ensures ExpandNobleGas(s) == s
  {
    assert BracketMatch(s).None? by {
      forall o, c ensures !Closes(s, o, c) {
        if 0 <= o < |s| {
          assert s[o] in s;
        }
      }
    }
  }

  /** In "[X]" followed by anything the first bracket pair is the one around X. */
  lemma LeadingBracket(x: string, rest: string)
    requires forall k :: 0 <= k < |x| ==> x[k] != ']' && !IsLineTerminator(x[k])
    ensures BracketMatch("[" + x + "]" + rest).Some?
    ensures BracketMatch("[" + x + "]" + rest).value.0 == 0
    ensures BracketMatch("[" + x + "]" + rest).value.1 == |x| + 1
  {
    var s := "[" + x + "]" + rest;
    assert ReachesClose(s, 1, |x| + 1) by {
      forall k | 1 <= k < |x| + 1 ensures s[k] != ']' && !IsLineTerminator(s[k]) {
        assert s[k] == x[k - 1];
      }
    }
    assert Closes(s, 0, |x| + 1);
    assert CloseFrom(s, 1).Some?;
    var c := CloseFrom(s, 1).value;
    assert c == |x| + 1 by {
      assert s[c] == ']';
      assert !(c < |x| + 1);
      assert !(c > |x| + 1);
    }
  }

  /** Tokens do not see one whitespace character more or less at the front. */
  lemma TokensDropOneSpace(rest: string)
    ensures Tokens(if |rest| > 0 && IsSpace(rest[0]) then rest[1..] else rest) == Tokens(rest)
  {
    if |rest| > 0 && IsSpace(rest[0]) {
      LeadingSpaceIgnored(rest[0], rest[1..]);
      assert rest == [rest[0]] + rest[1..];
    }
  }

  /** An orbital term has no whitespace and no bracket in it. */
  lemma OrbitalTermChars(t: string)
    requires IsOrbitalTerm(t)
    ensures forall k :: 0 <= k < |t| ==> !IsSpace(t[k]) && t[k] != '['
  {
    forall k | 0 <= k < |t| ensures !IsSpace(t[k]) && t[k] != '[' {
      if k >= 2 {
        assert t[k] == t[2..][k - 2];
      }
    }
  }

  predicate AllOrbital(ts: seq<string>) {
    forall k :: 0 <= k < |ts| ==> IsOrbitalTerm(ts[k])
  }

  lemma AllOrbitalAppend(a: seq<string>, b: seq<string>)
    requires AllOrbital(a) && AllOrbital(b)
    ensures AllOrbital(a + b)
  {
    forall k | 0 <= k < |a + b| ensures IsOrbitalTerm((a + b)[k]) {
      if k >= |a| {
        assert (a + b)[k] == b[k - |a|];
      }
    }
  }

  lemma TwoDigitCounts()
    ensures IsOrbitalTerm("3d10") && IsOrbitalTerm("4d10") && IsOrbitalTerm("4f14") && IsOrbitalTerm("5d10")
  {
    assert "3d10"[2..] == "10" && "4d10"[2..] == "10" && "4f14"[2..] == "14" && "5d10"[2..] == "10";
  }

  /** Every noble-gas term is an orbital term. */
  lemma NobleGasTermsAreOrbital(x: string)
    ensures AllOrbital(NobleGasTerms(x))
  {
    TwoDigitCounts();
    assert AllOrbital(HeTerms);
    assert AllOrbital(["2s2", "2p6"]) && AllOrbital(["3s2", "3p6"]);
    assert AllOrbital(["4s2", "3d10", "4p6"]) && AllOrbital(["5s2", "4d10", "5p6"]);
    assert AllOrbital(["6s2", "4f14", "5d10", "6p6"]);
    AllOrbitalAppend(HeTerms, ["2s2", "2p6"]);
    AllOrbitalAppend(NeTerms, ["3s2", "3p6"]);
    AllOrbitalAppend(ArTerms, ["4s2", "3d10", "4p6"]);
    AllOrbitalAppend(KrTerms, ["5s2", "4d10", "5p6"]);
    AllOrbitalAppend(XeTerms, ["6s2", "4f14", "5d10", "6p6"]);
  }

  /** The expansion of a symbol contains no '[' and splits back into its terms. */
  lemma NobleGasCoreParts(x: string)
    ensures '[' !in NobleGasCore(x)
    ensures Tokens(NobleGasCore(x)) == NobleGasTerms(x)
  {
    var ts := NobleGasTerms(x);
    if |ts| > 0 {
      NobleGasTermsAreOrbital(x);
      forall k | 0 <= k < |ts| ensures |ts[k]| > 0 && '[' !in ts[k]
        && forall i :: 0 <= i < |ts[k]| ==> !IsSpace(ts[k][i])
      {
        OrbitalTermChars(ts[k]);
      }
      CharNotInJoin(ts, ' ', '[');
      TokensOfJoin(ts);
    }
  }

  /** The text after "[X]", with at most one leading whitespace character cut. */
  function AfterBracket(rest: string): string {
    if |rest| > 0 && IsSpace(rest[0]) then rest[1..] else rest
  }

  /** Expanding "[X] rest" puts X's expansion and one space in front of
      the rest. */
  lemma ExpandLeading(x: string, rest: string)
    requires forall k :: 0 <= k < |x| ==> x[k] != ']' && !IsLineTerminator(x[k])
    ensures ExpandNobleGas("[" + x + "]" + rest) == NobleGasCore(x) + [' '] + AfterBracket(rest)
  {
    var s := "[" + x + "]" + rest;
    LeadingBracket(x, rest);
    BracketSlices(x, rest);
    ExpandAt(s, 0, |x| + 1);
  }

  /** The pieces of "[X] rest" around the bracket pair. */
  lemma BracketSlices(x: string, rest: string)
    ensures ("[" + x + "]" + rest)[1..|x| + 1] == x
    ensures ("[" + x + "]" + rest)[..0] == []
    ensures |x| + 2 <= |"[" + x + "]" + rest|
    ensures ("[" + x + "]" + rest)[|x| + 2..] == rest
  {
    var s := "[" + x + "]" + rest;
    assert s == ("[" + x + "]") + rest;
  }

  /** Expanding a string whose first bracket pair spans `open`..`close`. */
  lemma ExpandAt(s: string, open: nat, close: nat)
    requires BracketMatch(s) == Some((open, close))
    requires open == 0 && close + 1 <= |s|
    ensures ExpandNobleGas(s) == NobleGasCore(s[1..close]) + [' '] + AfterBracket(s[close + 1..])
  {
    SpliceAtFront(s, close, NobleGasCore(s[1..close]));
  }

  lemma SpliceAtFront(s: string, close: nat, core: string)
    requires 0 < close < |s|
    ensures Splice(s, 0, close, core) == core + [' '] + AfterBracket(s[close + 1..])
  {
    assert s[..0] == [];
    if close + 1 < |s| && IsSpace(s[close + 1]) {
      assert s[close + 1..][1..] == s[close + 2..];
    }
  }

  /** "[X] rest" splits into the same tokens as X's expansion followed by
      rest; the bracket may swallow one whitespace character. */
  lemma ExpandedParts(x: string, rest: string)
    requires forall k :: 0 <= k < |x| ==> x[k] != ']' && !IsLineTerminator(x[k])
    ensures Tokens(ExpandNobleGas("[" + x + "]" + rest)) == Tokens(NobleGasCore(x) + " " + rest)
  {
    ExpandLeading(x, rest);
    SpaceThenTokens(NobleGasCore(x), rest);
  }

  /** Whatever precedes a space, one whitespace character more or less
      after it does not change the tokens. */
  lemma SpaceThenTokens(core: string, rest: string)
    ensures Tokens(core + [' '] + AfterBracket(rest)) == Tokens(core + " " + rest)
  {
    TokensSplitAtSpace(core, ' ', AfterBracket(rest));
    TokensSplitAtSpace(core, ' ', rest);
    assert core + " " + rest == core + [' '] + rest;
    TokensDropOneSpace(rest);
  }

  /** The symbols in brackets have no ']' and no line break. */
  lemma NobleGasSymbolChars(x: string)
    requires IsNobleGas(x)
    ensures forall k :: 0 <= k < |x| ==> x[k] != ']' && !IsLineTerminator(x[k])
  {
    assert |x| == 2;
    assert x[0] in "HNAKXR" && x[1] in "eran";
  }

  /** Two non-empty strings whose expansions split the same way parse the same. */
  lemma SameTokensSameParse(a: string, b: string, atomicNumber: int)
    requires a != "" && b != ""
    requires Tokens(ExpandNobleGas(a)) == Tokens(ExpandNobleGas(b))
    ensures Parse(Some(a), atomicNumber) == Parse(Some(b), atomicNumber)
  {
    assert PartsOf(a) == PartsOf(b);
  }

  /** The noble-gas round trip: "[X] rest" parses exactly like X's
      spelled-out configuration followed by rest, when rest has no further
      bracket. */
  lemma NobleGasRoundTrip(x: string, rest: string, atomicNumber: int)
    requires IsNobleGas(x)
    requires '[' !in rest
    ensures Parse(Some("[" + x + "]" + rest), atomicNumber)
         == Parse(Some(NobleGasCore(x) + " " + rest), atomicNumber)
  {
    NobleGasSymbolChars(x);
    ExpandedParts(x, rest);
    NobleGasCoreParts(x);
    var spelled := NobleGasCore(x) + " " + rest;
    assert '[' !in spelled;
    NoBracketNoExpansion(spelled);
    assert spelled[|spelled| - |rest| - 1] == ' ';
    SameTokensSameParse("[" + x + "]" + rest, spelled, atomicNumber);
  }

  /** An unrecognised bracketed symbol expands to nothing and the rest of
      the string is still parsed. */
  lemma UnknownBracketParsesRest(x: string, rest: string, atomicNumber: int)
    requires !IsNobleGas(x)
    requires forall k :: 0 <= k < |x| ==> x[k] != ']' && !IsLineTerminator(x[k])
    requires '[' !in rest && rest != ""
    ensures Parse(Some("[" + x + "]" + rest), atomicNumber) == Parse(Some(rest), atomicNumber)
  {
    ExpandedParts(x, rest);
    UnknownSymbolCore(x);
    assert NobleGasCore(x) + " " + rest == [' '] + rest;
    LeadingSpaceIgnored(' ', rest);
    NoBracketNoExpansion(rest);
    SameTokensSameParse("[" + x + "]" + rest, rest, atomicNumber);
  }

  /** A symbol that is not a noble gas expands to nothing. */
  lemma UnknownSymbolCore(x: string)
    requires !IsNobleGas(x)
    ensures NobleGasCore(x) == ""
  {
  }

  /** "[Ar] 3d10 4s1" is the bracketed symbol followed by " 3d10 4s1". */
  lemma CopperSpelling()
    ensures "[Ar] 3d10 4s1" == "[" + "Ar" + "]" + " 3d10 4s1"
  {
  }

  lemma TokensOfTwoWords()
    ensures Tokens("3d10" + [' '] + "4s1") == ["3d10", "4s1"]
  {
    TokensSplitAtSpace("3d10", ' ', "4s1");
    TokensOfWord("3d10");
    TokensOfWord("4s1");
  }

  /** The text after the bracket in copper's configuration. */
  lemma CopperRest()
    ensures '[' !in " 3d10 4s1"
    ensures Tokens(" 3d10 4s1") == ["3d10", "4s1"]
  {
    assert " 3d10 4s1" == [' '] + ("3d10" + [' '] + "4s1");
    LeadingSpaceIgnored(' ', "3d10" + [' '] + "4s1");
    TokensOfTwoWords();
  }

  lemma ArgonTerms()
    ensures Tokens(NobleGasCore("Ar")) == ["1s2", "2s2", "2p6", "3s2", "3p6"]
    ensures '[' !in NobleGasCore("Ar")
  {
    NobleGasCoreParts("Ar");
    assert ArTerms == ["1s2", "2s2", "2p6", "3s2", "3p6"];
  }

  /** A bracket-free string with some token splits into its tokens. */
  lemma PlainParts(s: string)
    requires '[' !in s && Tokens(s) != []
    ensures PartsOf(s) == Tokens(s)
  {
    NoBracketNoExpansion(s);
  }

  /** Two bracket-free pieces joined by a space split into the tokens of
      the first followed by those of the second. */
  lemma SpelledParts(core: string, rest: string, a: seq<string>, b: seq<string>)
    requires '[' !in core && '[' !in rest
    requires Tokens(core) == a && Tokens(rest) == b && a != []
    ensures PartsOf(core + " " + rest) == a + b
  {
    var s := core + " " + rest;
    assert s == core + [' '] + rest;
    assert '[' !in s;
    TokensSplitAtSpace(core, ' ', rest);
    PlainParts(s);
  }

  /** A string whose first part is an orbital term parses to its tally. */
  lemma ParseOfTerms(s: string, atomicNumber: int)
    requires |PartsOf(s)| > 0 && IsOrbitalTerm(PartsOf(s)[0])
    ensures Parse(Some(s), atomicNumber) == Tally(PartsOf(s))
  {
    assert PartsOf(s)[0] in PartsOf(s);
    ParseUsesTally(s, atomicNumber);
  }

  lemma TallySnoc(ts: seq<string>, t: string)
    ensures Tally(ts + [t]) == AddTerm(Tally(ts), t)
  {
    assert (ts + [t])[..|ts|] == ts;
  }

  /** A term's shell and count, read off its characters. */
  lemma TermValue(t: string, d: nat, c: nat)
    requires |t| >= 3 && IsDigit(t[0]) && IsOrbitalLetter(t[1]) && AllDigits(t[2..])
    requires DigitValue(t[0]) == d && ParseDigits(t[2..]) == c
    ensures IsOrbitalTerm(t) && NamesShell(t, d) && TermCount(t) == c
  {
  }

  /** One more term on the end adds its count to its shell. */
  lemma TallyOfSnoc(ts: seq<string>, t: string, d: nat, c: nat, m: ShellMap)
    requires Tally(ts) == m
    requires IsOrbitalTerm(t) && NamesShell(t, d) && TermCount(t) == c
    ensures Tally(ts + [t]) == m[d := (if d in m then m[d] else 0) + c]
  {
    TallySnoc(ts, t);
  }

  lemma NeonTally()
    ensures Tally(["1s2", "2s2", "2p6"]) == map[1 := 2, 2 := 8]
  {
    TermValue("1s2", 1, 2);
    TermValue("2s2", 2, 2);
    TermValue("2p6", 2, 6);
    TallyOfSnoc([], "1s2", 1, 2, map[]);
    assert [] + ["1s2"] == ["1s2"];
    TallyOfSnoc(["1s2"], "2s2", 2, 2, map[1 := 2]);
    assert ["1s2"] + ["2s2"] == ["1s2", "2s2"];
    TallyOfSnoc(["1s2", "2s2"], "2p6", 2, 6, map[1 := 2, 2 := 2]);
    assert ["1s2", "2s2"] + ["2p6"] == ["1s2", "2s2", "2p6"];
  }

  lemma ArgonTally()
    ensures Tally(["1s2", "2s2", "2p6", "3s2", "3p6"]) == map[1 := 2, 2 := 8, 3 := 8]
  {
    var b := ["1s2", "2s2", "2p6"];
    NeonTally();
    TermValue("3s2", 3, 2);
    TermValue("3p6", 3, 6);
    TallyOfSnoc(b, "3s2", 3, 2, map[1 := 2, 2 := 8]);
    TallyOfSnoc(b + ["3s2"], "3p6", 3, 6, map[1 := 2, 2 := 8, 3 := 2]);
    assert b + ["3s2"] + ["3p6"] == ["1s2", "2s2", "2p6", "3s2", "3p6"];
  }

  lemma CopperTally()
    ensures Tally(["1s2", "2s2", "2p6", "3s2", "3p6", "3d10", "4s1"]) == map[1 := 2, 2 := 8, 3 := 18, 4 := 1]
  {
    var c := ["1s2", "2s2", "2p6", "3s2", "3p6"];
    ArgonTally();
    ThreeDTen();
    TermValue("4s1", 4, 1);
    TallyOfSnoc(c, "3d10", 3, 10, map[1 := 2, 2 := 8, 3 := 8]);
    TallyOfSnoc(c + ["3d10"], "4s1", 4, 1, map[1 := 2, 2 := 8, 3 := 18]);
    assert c + ["3d10"] + ["4s1"] == ["1s2", "2s2", "2p6", "3s2", "3p6", "3d10", "4s1"];
  }

  lemma ThreeDTen()
    ensures IsOrbitalTerm("3d10") && NamesShell("3d10", 3) && TermCount("3d10") == 10
  {
    assert "3d10"[2..] == "10" && ParseDigits("10") == 10;
    TermValue("3d10", 3, 10);
  }

  lemma CopperParts()
    ensures PartsOf(NobleGasCore("Ar") + " " + " 3d10 4s1")
         == ["1s2", "2s2", "2p6", "3s2", "3p6", "3d10", "4s1"]
  {
    ArgonTerms();
    CopperRest();
    SpelledParts(NobleGasCore("Ar"), " 3d10 4s1",
      ["1s2", "2s2", "2p6", "3s2", "3p6"], ["3d10", "4s1"]);
  }

  /** Copper: "[Ar] 3d10 4s1" gives 2, 8, 18, 1. */
  lemma CopperConfiguration()
    ensures Parse(Some("[Ar] 3d10 4s1"), 29) == map[1 := 2, 2 := 8, 3 := 18, 4 := 1]
  {
    CopperSpelling();
    CopperRest();
    NobleGasRoundTrip("Ar", " 3d10 4s1", 29);
    CopperParts();
    CopperTally();
    TermValue("1s2", 1, 2);
    ParsesTo("[Ar] 3d10 4s1", NobleGasCore("Ar") + " " + " 3d10 4s1",
      ["1s2", "2s2", "2p6", "3s2", "3p6", "3d10", "4s1"], map[1 := 2, 2 := 8, 3 := 18, 4 := 1], 29);
  }

  /** A string that parses like one whose parts tally to `m`, the first of
      them an orbital term, parses to `m`. */
  lemma ParsesTo(s: string, spelled: string, ps: seq<string>, m: ShellMap, n: int)
    requires Parse(Some(s), n) == Parse(Some(spelled), n)
    requires PartsOf(spelled) == ps && Tally(ps) == m
    requires |ps| > 0 && IsOrbitalTerm(ps[0])
    ensures Parse(Some(s), n) == m
  {
    ParseOfTerms(spelled, n);
  }

  /** `getElementElectronConfig`: the semantic configuration when it is a
      non-empty string, else the raw one, else the fill by atomic number. */
  predicate Present(s: Option<string>) {
    s.Some? && s.value != ""
  }

  function Resolve(e: Element): (r: ShellMap)
    ensures DigitKeyed(r)
    ensures e.number > 0 ==> |r| > 0
    ensures !Present(e.electronConfiguration) && !Present(e.electronConfigurationSemantic) ==>
      (|r| == 0 <==> e.number <= 0)
    ensures Present(e.electronConfiguration) || Present(e.electronConfigurationSemantic) ==>
      (|r| == 0 ==> e.number < 0)
  {
    ByNumberAt(e.number, 1);
    ParseShape(e.electronConfigurationSemantic, e.number);
    ParseShape(e.electronConfiguration, e.number);
    if Present(e.electronConfiguration) || Present(e.electronConfigurationSemantic) then
      Parse(if Present(e.electronConfigurationSemantic) then e.electronConfigurationSemantic
            else e.electronConfiguration, e.number)
    else ShellsByNumber(e.number)
  }

  /** A non-empty semantic configuration makes the raw one irrelevant. */
  lemma SemanticPreferred(e: Element, raw: Option<string>)
    requires Present(e.electronConfigurationSemantic)
    ensures Resolve(e) == Resolve(e.(electronConfiguration := raw))
    ensures Resolve(e) == Parse(e.electronConfigurationSemantic, e.number)
  {
  }

  /** With neither string present the fill by the element's own number is
      used, where 0 stays 0 (no `|| 1` on this path). */
  lemma NoConfigurationUsesFill(e: Element)
    requires !Present(e.electronConfiguration) && !Present(e.electronConfigurationSemantic)
    ensures Resolve(e) == ShellsByNumber(e.number)
  {
  }
}
