/** The Bohr-style atom view: how a shell map becomes rings of electrons and
    text labels, and how showing an atom or the table flips the two scene
    groups. Geometry is kept to what the layout decides: ring radii, the
    fraction of a turn at which each electron starts, its angular speed and
    the vertical position of each label. */
module AtomicModel {
  import opened Collections
  import opened Text
  import opened Elements
  import opened ElectronConfig

  // ---------------------------------------------------------------------
  // Shell order

  /** The keys of `m` below `k`, ascending. */
  function KeysBelow(m: ShellMap, k: nat): (ks: seq<nat>)
    ensures forall i, j :: 0 <= i < j < |ks| ==> ks[i] < ks[j]
    ensures forall i :: 0 <= i < |ks| ==> ks[i] < k && ks[i] in m
    ensures forall x :: x in m && x < k ==> x in ks
  {
    if k == 0 then []
    else
      var init := KeysBelow(m, k - 1);
      if k - 1 in m then init + [k - 1] else init
  }

  /** `Object.keys(config).sort((a, b) => parseInt(a) - parseInt(b))` for a
      map keyed by digits. */
  function SortedKeys(m: ShellMap): seq<nat> {
    KeysBelow(m, 10)
  }

  /** Every shell of a digit-keyed map is listed once, in ascending order. */
  lemma SortedKeysComplete(m: ShellMap)
    requires DigitKeyed(m)
    ensures forall i, j :: 0 <= i < j < |SortedKeys(m)| ==> SortedKeys(m)[i] < SortedKeys(m)[j]
    ensures forall x :: x in SortedKeys(m) <==> x in m
  {
  }

  // ---------------------------------------------------------------------
  // Rings and electrons

  /** `rotationSpeed: 0.5 / (0.8 + shellNumber * 0.2)`. */
  function Speed(shell: nat): real {
    0.5 / (0.8 + shell as real * 0.2)
  }

  /** Outer shells turn more slowly. */
  lemma SpeedDecreases(a: nat, b: nat)
    requires a < b
    ensures Speed(a) > Speed(b) > 0.0
  {
    var da := 0.8 + a as real * 0.2;
    var db := 0.8 + b as real * 0.2;
    var sa, sb := Speed(a), Speed(b);
    assert 0.0 < da < db;
    assert sa * da == 0.5;
    assert sb * db == 0.5;
    assert sb > 0.0;
    ScaleMonotone(sb, da, db);
    if sa <= sb {
      ScaleMonotone(da, sa, sb);
      assert false;
    }
  }

  /** Multiplying by a positive factor keeps the order. */
  lemma ScaleMonotone(k: real, x: real, y: real)
    requires k > 0.0 && x < y
    ensures k * x < k * y
  {
    assert k * y - k * x == k * (y - x);
  }

  /** An electron as the animation reads it: its shell, its orbit radius,
      the fraction of a turn it starts at, and its angular speed. */
  datatype Electron = Electron(shell: nat, radius: int, turn: real, speed: real)

  /** One visible shell: its orbit ring and its electrons. */
  datatype Ring = Ring(shell: nat, radius: int, electrons: seq<Electron>)

  /** The `count` electrons of a shell, electron i starting at i/count of a turn. */
  function ShellElectrons(shell: nat, count: nat, radius: int): (es: seq<Electron>)
    ensures |es| == count
  {
    seq(count, i requires 0 <= i < count =>
      Electron(shell, radius, i as real / count as real, Speed(shell)))
  }

  /** The electrons of a shell are spread evenly over one turn: the first
      starts at 0, each next one a 1/count turn further, all before a full turn,
      all on the ring's radius and at the shell's speed. */
  lemma ElectronsEvenlySpread(shell: nat, count: nat, radius: int)
    ensures count > 0 ==> ShellElectrons(shell, count, radius)[0].turn == 0.0
    ensures forall i :: 0 <= i < count - 1 ==>
      ShellElectrons(shell, count, radius)[i + 1].turn - ShellElectrons(shell, count, radius)[i].turn
        == 1.0 / count as real
    ensures forall i :: 0 <= i < count ==>
      0.0 <= ShellElectrons(shell, count, radius)[i].turn < 1.0
    ensures forall i :: 0 <= i < count ==>
      ShellElectrons(shell, count, radius)[i].radius == radius
      && ShellElectrons(shell, count, radius)[i].shell == shell
      && ShellElectrons(shell, count, radius)[i].speed == Speed(shell)
  {
    var es := ShellElectrons(shell, count, radius);
    forall i | 0 <= i < count - 1
      ensures es[i + 1].turn - es[i].turn == 1.0 / count as real
    {
      assert es[i + 1].turn == (i + 1) as real / count as real;
      assert es[i].turn == i as real / count as real;
      assert (i + 1) as real / count as real - i as real / count as real
          == ((i + 1) as real - i as real) / count as real;
    }
    forall i | 0 <= i < count ensures 0.0 <= es[i].turn < 1.0 {
      assert es[i].turn == i as real / count as real;
      assert i as real < count as real;
    }
  }

  /** Shells with at least one electron, in the given order. */
  function NonEmptyShells(m: ShellMap, keys: seq<nat>): seq<nat> {
    Filter(keys, k => k in m && m[k] > 0)
  }

  /** The loop over the sorted keys: empty shells are skipped, every other
      shell gets a ring at `radius`, and the radius grows by 3 per ring drawn. */
  function Rings(m: ShellMap, keys: seq<nat>, radius: int): (rs: seq<Ring>)
    requires forall i :: 0 <= i < |keys| ==> keys[i] in m
    ensures |rs| == |NonEmptyShells(m, keys)|
    ensures forall j :: 0 <= j < |rs| ==>
      rs[j].shell == NonEmptyShells(m, keys)[j] && rs[j].radius == radius + 3 * j
      && rs[j].electrons == ShellElectrons(rs[j].shell, m[rs[j].shell], rs[j].radius)
    decreases |keys|
  {
    if |keys| == 0 then []
    else
      var k := keys[0];
      if m[k] <= 0 then Rings(m, keys[1..], radius)
      else [Ring(k, radius, ShellElectrons(k, m[k], radius))] + Rings(m, keys[1..], radius + 3)
  }

  /** The rings of a shell map, starting at radius 5. */
  function ShellRings(m: ShellMap): seq<Ring> {
    SortedKeysInMap(m);
    Rings(m, SortedKeys(m), 5)
  }

  /** Whatever its keys, every listed key of a shell map is one of its keys
      (the digit-keyed form, `SortedKeysComplete`, also gives the converse
      and the order). */
  lemma SortedKeysInMap(m: ShellMap)
    ensures forall i :: 0 <= i < |SortedKeys(m)| ==> SortedKeys(m)[i] in m
  {
  }

  /** The k-th drawn ring has radius 5 + 3k whatever shells were skipped
      before it, the rings follow the shells in ascending order, and there
      is one ring per non-empty shell. */
  lemma RingLayout(m: ShellMap)
    requires DigitKeyed(m)
    ensures forall j :: 0 <= j < |ShellRings(m)| ==> ShellRings(m)[j].radius == 5 + 3 * j
    ensures forall i, j :: 0 <= i < j < |ShellRings(m)| ==> ShellRings(m)[i].shell < ShellRings(m)[j].shell
    ensures forall j :: 0 <= j < |ShellRings(m)| ==>
      ShellRings(m)[j].shell in m && m[ShellRings(m)[j].shell] > 0
    ensures forall k :: k in m && m[k] > 0 ==> exists j :: 0 <= j < |ShellRings(m)| && ShellRings(m)[j].shell == k
  {
    var keys := SortedKeys(m);
    SortedKeysComplete(m);
    var rs := ShellRings(m);
    var ne := NonEmptyShells(m, keys);
    FilterIsSubseq(keys, k => k in m && m[k] > 0);
    SubseqKeepsIncreasing(ne, keys);
    forall k | k in m && m[k] > 0 ensures exists j :: 0 <= j < |rs| && rs[j].shell == k {
      var i :| 0 <= i < |keys| && keys[i] == k;
      assert k in ne;
      var j :| 0 <= j < |ne| && ne[j] == k;
      assert rs[j].shell == k;
    }
  }

  /** A subsequence of a strictly increasing list is strictly increasing. */
  lemma {:induction false} SubseqKeepsIncreasing(a: seq<nat>, b: seq<nat>)
    requires SubseqOf(a, b)
    requires forall i, j :: 0 <= i < j < |b| ==> b[i] < b[j]
    ensures forall i, j :: 0 <= i < j < |a| ==> a[i] < a[j]
    decreases |b|
  {
    if |a| > 0 && |b| > 0 {
      if a[0] == b[0] {
        SubseqKeepsIncreasing(a[1..], b[1..]);
        SubseqMembers(a[1..], b[1..]);
        forall j | 0 < j < |a| ensures a[0] < a[j] {
          assert a[j] == a[1..][j - 1];
          assert a[j] in a[1..];
          var k :| 0 <= k < |b[1..]| && b[1..][k] == a[j];
          assert b[k + 1] == a[j];
        }
      } else {
        SubseqKeepsIncreasing(a, b[1..]);
      }
    }
  }

  // ---------------------------------------------------------------------
  // Composition and labels

  /** `Math.round`: the nearest integer, halves rounded up. */
  function Round(x: real): int {
    (x + 0.5).Floor
  }

  /** `Number.parseFloat(element.atomic_mass) || numProtons`: an unparseable
      or zero mass falls back to the proton count. */
  function MassOrProtons(e: Element): real {
    match e.atomicMass
    case Some(v) => if v != 0.0 then v else e.number as real
    case None => e.number as real
  }

  /** `Math.round(atomicMass) - numProtons`. */
  function Neutrons(e: Element): (n: int)
    ensures (e.number + n) as real - 0.5 <= MassOrProtons(e) < (e.number + n) as real + 0.5
  {
    Round(MassOrProtons(e)) - e.number
  }

  /** Without a usable mass the model shows no neutrons. */
  lemma NoMassNoNeutrons(e: Element)
    requires e.atomicMass.None? || e.atomicMass == Some(0.0)
    ensures Neutrons(e) == 0
  {
    assert MassOrProtons(e) == e.number as real;
  }

  /** `Shell ${shell}: ${count} electrons`. */
  function ShellEntry(shell: nat, count: nat): string {
    "Shell " + NatToString(shell) + ": " + NatToString(count) + " electrons"
  }

  /** `Object.entries(config)` sorted by shell, as label entries; shells
      with zero electrons are listed too. */
  function ShellEntries(m: ShellMap): (es: seq<string>)
    ensures |es| == |SortedKeys(m)|
  {
    var ks := SortedKeys(m);
    SortedKeysInMap(m);
    seq(|ks|, i requires 0 <= i < |ks| => ShellEntry(ks[i], m[ks[i]]))
  }

  /** Consecutive groups of `size` entries; the last may be shorter. */
  function Chunks(xs: seq<string>, size: nat): (cs: seq<seq<string>>)
    requires size > 0
    ensures forall i :: 0 <= i < |cs| ==> 0 < |cs[i]| <= size
    decreases |xs|
  {
    if |xs| == 0 then []
    else if |xs| <= size then [xs]
    else [xs[..size]] + Chunks(xs[size..], size)
  }

  function Flatten(cs: seq<seq<string>>): seq<string> {
    if |cs| == 0 then [] else cs[0] + Flatten(cs[1..])
  }

  lemma {:induction false} ChunksFlatten(xs: seq<string>, size: nat)
    requires size > 0
    ensures Flatten(Chunks(xs, size)) == xs
    decreases |xs|
  {
    if |xs| > size {
      ChunksFlatten(xs[size..], size);
      assert xs == xs[..size] + xs[size..];
    } else if |xs| > 0 {
      assert Flatten([xs]) == xs + Flatten([]);
    }
  }

  /** The label lines: two entries per line, or all of them on one line
      when there are at most two (`shellsPerLine = totalShells`). */
  function ShellLines(entries: seq<string>): seq<seq<string>> {
    if |entries| == 0 then []
    else Chunks(entries, if |entries| <= 2 then |entries| else 2)
  }

  /** Read in order, the lines give back every entry; no line holds more
      than two, and two or fewer entries share a single line. */
  lemma ShellLinesShape(entries: seq<string>)
    ensures Flatten(ShellLines(entries)) == entries
    ensures forall i :: 0 <= i < |ShellLines(entries)| ==> 0 < |ShellLines(entries)[i]| <= 2
    ensures 0 < |entries| <= 2 ==> ShellLines(entries) == [entries]
    ensures |entries| > 2 ==> |ShellLines(entries)| == (|entries| + 1) / 2
  {
    if |entries| > 0 {
      var size := if |entries| <= 2 then |entries| else 2;
      ChunksFlatten(entries, size);
      if |entries| > 2 {
        ChunkCount(entries);
      }
    }
  }

  lemma {:induction false} ChunkCount(xs: seq<string>)
    ensures |Chunks(xs, 2)| == (|xs| + 1) / 2
    decreases |xs|
  {
    if |xs| > 2 {
      ChunkCount(xs[2..]);
    }
  }

  /** `parts.join(sep)` with a string separator. */
  function JoinWith(parts: seq<string>, sep: string): string {
    if |parts| == 0 then ""
    else if |parts| == 1 then parts[0]
    else parts[0] + sep + JoinWith(parts[1..], sep)
  }

  /** A text sprite and the height it is placed at. */
  datatype Label = Label(text: string, y: int)

  /** Line i of the shell labels sits at y = -15 - 3i: each line shows its
      entries joined by " | ", every line sits below the composition line
      at -10, and later lines sit lower, at least 3 apart, so no two
      overlap. */
  function LineLabels(lines: seq<seq<string>>): (ls: seq<Label>)
    ensures |ls| == |lines|
    ensures forall i :: 0 <= i < |lines| ==> ls[i].text == JoinWith(lines[i], " | ") && ls[i].y == -15 - 3 * i
    ensures forall i, j :: 0 <= i < j < |lines| ==> ls[j].y <= ls[i].y - 3
  {
    seq(|lines|, i requires 0 <= i < |lines| => Label(JoinWith(lines[i], " | "), -15 - 3 * i))
  }

  /** `Protons: p | Neutrons: n | Electrons: p`. */
  function CompositionText(e: Element): string {
    "Protons: " + IntToString(e.number) + " | Neutrons: " + IntToString(Neutrons(e))
    + " | Electrons: " + IntToString(e.number)
  }

  // ---------------------------------------------------------------------
  // The atom group

  /** The objects `createAtomicModel` adds to the atom group. */
  datatype AtomObject =
    | Nucleus(symbol: string)
    | Orbit(shell: nat, radius: int)
    | ShellGroup(electrons: seq<Electron>)
    | Caption(line: Label)

  /** Each drawn shell adds its orbit ring and then its group of electrons. */
  function RingObjects(rs: seq<Ring>): (os: seq<AtomObject>)
    ensures |os| == 2 * |rs|
    ensures forall j :: 0 <= j < |rs| ==>
      os[2 * j] == Orbit(rs[j].shell, rs[j].radius) && os[2 * j + 1] == ShellGroup(rs[j].electrons)
  {
    if |rs| == 0 then []
    else [Orbit(rs[0].shell, rs[0].radius), ShellGroup(rs[0].electrons)] + RingObjects(rs[1..])
  }

  function TextObjects(ls: seq<Label>): (os: seq<AtomObject>)
    ensures |os| == |ls|
    ensures forall i :: 0 <= i < |ls| ==> os[i] == Caption(ls[i])
  {
    seq(|ls|, i requires 0 <= i < |ls| => Caption(ls[i]))
  }

  /** The whole atom for an element with shell map `m`: nucleus, rings,
      the name at y = 10, the composition at y = -10, then the shell lines. */
  function AtomOf(e: Element, m: ShellMap): seq<AtomObject> {
    AtomFront(e, m) + AtomBack(e, m)
  }

  /** The nucleus, the rings and the name. */
  function AtomFront(e: Element, m: ShellMap): (os: seq<AtomObject>)
    ensures |os| == 2 + 2 * |ShellRings(m)|
  {
    [Nucleus(e.symbol)] + RingObjects(ShellRings(m)) + [Caption(Label(e.name + " (" + e.symbol + ")", 10))]
  }

  /** The composition and the shell lines. */
  function AtomBack(e: Element, m: ShellMap): seq<AtomObject> {
    [Caption(Label(CompositionText(e), -10))] + TextObjects(LineLabels(ShellLines(ShellEntries(m))))
  }

  /** The atom group holds one orbit per non-empty shell, at radius 5 + 3j
      for the j-th, each followed by a group with one electron per electron
      of that shell; then the name at y = 10, the composition at y = -10,
      and the shell lines, starting 5 below the composition and 3 apart. */
  lemma AtomLayout(e: Element, m: ShellMap)
    requires DigitKeyed(m)
    ensures |AtomOf(e, m)| == 3 + 2 * |ShellRings(m)| + |ShellLines(ShellEntries(m))|
    ensures forall j :: 0 <= j < |ShellRings(m)| ==>
      AtomOf(e, m)[1 + 2 * j] == Orbit(ShellRings(m)[j].shell, 5 + 3 * j)
      && AtomOf(e, m)[2 + 2 * j] == ShellGroup(ShellRings(m)[j].electrons)
      && |ShellRings(m)[j].electrons| == m[ShellRings(m)[j].shell]
    ensures AtomOf(e, m)[0] == Nucleus(e.symbol)
    ensures AtomOf(e, m)[1 + 2 * |ShellRings(m)|] == Caption(Label(e.name + " (" + e.symbol + ")", 10))
    ensures AtomOf(e, m)[2 + 2 * |ShellRings(m)|..] ==
      [Caption(Label(CompositionText(e), -10))] + TextObjects(LineLabels(ShellLines(ShellEntries(m))))
  {
    RingsLayout(e, m);
    LabelsLayout(e, m);
  }

  lemma RingsLayout(e: Element, m: ShellMap)
    requires DigitKeyed(m)
    ensures |AtomOf(e, m)| == 3 + 2 * |ShellRings(m)| + |ShellLines(ShellEntries(m))|
    ensures forall j :: 0 <= j < |ShellRings(m)| ==>
      AtomOf(e, m)[1 + 2 * j] == Orbit(ShellRings(m)[j].shell, 5 + 3 * j)
      && AtomOf(e, m)[2 + 2 * j] == ShellGroup(ShellRings(m)[j].electrons)
      && |ShellRings(m)[j].electrons| == m[ShellRings(m)[j].shell]
    ensures AtomOf(e, m)[0] == Nucleus(e.symbol)
    ensures AtomOf(e, m)[1 + 2 * |ShellRings(m)|] == Caption(Label(e.name + " (" + e.symbol + ")", 10))
  {
    var rs := ShellRings(m);
    RingLayout(m);
    RingCounts(m);
    var tail := [Caption(Label(e.name + " (" + e.symbol + ")", 10))] + AtomBack(e, m);
    assert AtomOf(e, m) == [Nucleus(e.symbol)] + RingObjects(rs) + tail;
    RingsPlaced(Nucleus(e.symbol), rs, tail);
  }

  lemma LabelsLayout(e: Element, m: ShellMap)
    ensures |AtomOf(e, m)| == 3 + 2 * |ShellRings(m)| + |ShellLines(ShellEntries(m))|
    ensures AtomOf(e, m)[2 + 2 * |ShellRings(m)|..] ==
      [Caption(Label(CompositionText(e), -10))] + TextObjects(LineLabels(ShellLines(ShellEntries(m))))
  {
    DropFront(AtomFront(e, m), AtomBack(e, m));
  }

  /** Each ring holds one electron per electron of its shell. */
  lemma RingCounts(m: ShellMap)
    requires DigitKeyed(m)
    ensures forall j :: 0 <= j < |ShellRings(m)| ==>
      |ShellRings(m)[j].electrons| == m[ShellRings(m)[j].shell]
  {
    RingLayout(m);
  }

  /** Between a head and a non-empty tail, ring j's orbit and electron
      group sit at positions 1 + 2j and 2 + 2j. */
  lemma RingsPlaced(head: AtomObject, rs: seq<Ring>, tail: seq<AtomObject>)
    requires |tail| > 0
    ensures |[head] + RingObjects(rs) + tail| == 1 + 2 * |rs| + |tail|
    ensures ([head] + RingObjects(rs) + tail)[0] == head
    ensures ([head] + RingObjects(rs) + tail)[1 + 2 * |rs|] == tail[0]
    ensures forall j :: 0 <= j < |rs| ==>
      ([head] + RingObjects(rs) + tail)[1 + 2 * j] == Orbit(rs[j].shell, rs[j].radius)
      && ([head] + RingObjects(rs) + tail)[2 + 2 * j] == ShellGroup(rs[j].electrons)
  {
    var ro := RingObjects(rs);
    PlacedBetween(head, ro, tail);
    forall j | 0 <= j < |rs|
      ensures ([head] + ro + tail)[1 + 2 * j] == Orbit(rs[j].shell, rs[j].radius)
      && ([head] + ro + tail)[2 + 2 * j] == ShellGroup(rs[j].electrons)
    {
      assert ([head] + ro + tail)[1 + 2 * j] == ro[2 * j];
      assert ([head] + ro + tail)[1 + (2 * j + 1)] == ro[2 * j + 1];
    }
  }

  lemma PlacedBetween(head: AtomObject, mid: seq<AtomObject>, tail: seq<AtomObject>)
    requires |tail| > 0
    ensures |[head] + mid + tail| == 1 + |mid| + |tail|
    ensures ([head] + mid + tail)[0] == head
    ensures forall i :: 0 <= i < |mid| ==> ([head] + mid + tail)[1 + i] == mid[i]
    ensures ([head] + mid + tail)[1 + |mid|] == tail[0]
  {
  }

  // ---------------------------------------------------------------------
  // The scene groups

  /** What the atom and table views share: whether the scene objects exist,
      the two groups' visibility, the camera distance and the atom group's
      children. */
  datatype Scene = Scene(ready: bool, tableVisible: bool, atomVisible: bool, cameraZ: int, atom: seq<AtomObject>)

  /** The scene right after initialisation: table shown, atom hidden, camera at 20. */
  const InitialScene := Scene(true, true, false, 20, [])

  /** `createAtomicModel(element)`: without the scene objects nothing
      happens; otherwise the table is hidden, the atom group shown and
      emptied and refilled, and the camera moved to 40. */
  function CreateAtomicModel(s: Scene, e: Element): (r: Scene)
    ensures !s.ready ==> r == s
    ensures s.ready ==> !r.tableVisible && r.atomVisible && r.cameraZ == 40 && r.ready
    ensures s.ready ==> r.atom == AtomOf(e, Resolve(e))
    ensures s.ready ==> |r.atom| == 3 + 2 * |ShellRings(Resolve(e))| + |ShellLines(ShellEntries(Resolve(e)))|
  {
    AtomLayout(e, Resolve(e));
    if !s.ready then s
    else s.(tableVisible := false, atomVisible := true, cameraZ := 40, atom := AtomOf(e, Resolve(e)))
  }

  /** `showPeriodicTable()`: the table is shown, the atom hidden and the
      camera moved back to 20; the atom's objects are left in place. */
  function ShowPeriodicTable(s: Scene): (r: Scene)
    ensures !s.ready ==> r == s
    ensures s.ready ==> r.tableVisible && !r.atomVisible && r.cameraZ == 20 && r.atom == s.atom
  {
    if !s.ready then s
    else s.(tableVisible := true, atomVisible := false, cameraZ := 20)
  }

  /** Exactly one of the two groups is visible. */
  predicate Complementary(s: Scene) {
    s.tableVisible != s.atomVisible
  }

  /** Both operations keep exactly one group visible. */
  lemma ViewsStayComplementary(s: Scene, e: Element)
    requires Complementary(s)
    ensures Complementary(CreateAtomicModel(s, e))
    ensures Complementary(ShowPeriodicTable(s))
    ensures Complementary(InitialScene)
  {
  }

  /** Building an atom first empties the group: nothing of an earlier atom
      survives, so only the last call matters. */
  lemma CreateReplacesPreviousAtom(s: Scene, a: Element, b: Element)
    ensures CreateAtomicModel(CreateAtomicModel(s, a), b) == CreateAtomicModel(s, b)
    ensures CreateAtomicModel(ShowPeriodicTable(CreateAtomicModel(s, a)), b) == CreateAtomicModel(s, b)
  {
  }

  /** Showing the table and going back to the same atom restores the scene. */
  lemma TableThenAtomRoundTrip(s: Scene, e: Element)
    ensures CreateAtomicModel(ShowPeriodicTable(CreateAtomicModel(s, e)), e) == CreateAtomicModel(s, e)
    ensures ShowPeriodicTable(ShowPeriodicTable(s)) == ShowPeriodicTable(s)
  {
  }
}
