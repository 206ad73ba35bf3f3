/** The hazard badges shown for an element (`getHazardData` in
    lib/element-hazards.ts): ten fixed symbol lists checked in a fixed order,
    then one optional "special" note chosen by a switch on the symbol. */
module Hazards {
  import opened Collections
  import opened Elements

  datatype Kind =
    | Radioactive | Toxic | ExtremeToxic | Carcinogenic | Corrosive
    | Flammable | WaterReactive | Asphyxiant | Pyrophoric | Oxidizer | Special

  /** One badge: its type, its caption and its emoji. */
  datatype Hazard = Hazard(kind: Kind, caption: string, emoji: string)

  /** The `type` string the badge carries. */
  function TypeName(k: Kind): string {
    match k
    case Radioactive => "radioactive"
    case Toxic => "toxic"
    case ExtremeToxic => "extreme-toxic"
    case Carcinogenic => "carcinogenic"
    case Corrosive => "corrosive"
    case Flammable => "flammable"
    case WaterReactive => "water-reactive"
    case Asphyxiant => "asphyxiant"
    case Pyrophoric => "pyrophoric"
    case Oxidizer => "oxidizer"
    case Special => "special"
  }

  /** Position of a kind in the order the checks run. */
  function Rank(k: Kind): nat {
    match k
    case Radioactive => 0
    case Toxic => 1
    case ExtremeToxic => 2
    case Carcinogenic => 3
    case Corrosive => 4
    case Flammable => 5
    case WaterReactive => 6
    case Asphyxiant => 7
    case Pyrophoric => 8
    case Oxidizer => 9
    case Special => 10
  }

  /** The list-driven kinds, in the order their checks run. */
  const Listed: seq<Kind> :=
    [Radioactive, Toxic, ExtremeToxic, Carcinogenic, Corrosive,
     Flammable, WaterReactive, Asphyxiant, Pyrophoric, Oxidizer]

  const RadioactiveSymbols: seq<string> :=
    ["U", "Pu", "Ra", "Th", "Rn", "Po", "Tc", "Sr", "Am", "Cf", "Cm", "Np",
     "Pa", "Ac", "Pm", "Fr", "At", "Bi", "Es", "Fm", "Md", "No", "Lr"]
  const ToxicSymbols: seq<string> :=
    ["Be", "As", "Pb", "Hg", "Cd", "Tl", "Os", "Po", "Pu", "F", "Cl", "Br", "I",
     "Sb", "Te", "Ba", "Cs", "Li", "Na", "K", "Rb", "V", "Cr", "Co", "Ni", "Se",
     "P", "U"]
  const ExtremeToxicSymbols: seq<string> := ["Pb", "Hg", "Cd", "As", "Be", "Tl", "Po", "F"]
  const CarcinogenicSymbols: seq<string> := ["Be", "Cd", "Ni", "As", "Cr"]
  const CorrosiveSymbols: seq<string> := ["F", "Cl", "Br", "I", "Li", "Na", "K", "Rb", "Cs", "Fr"]
  const FlammableSymbols: seq<string> :=
    ["H", "Li", "Na", "K", "Rb", "Cs", "P", "Mg", "Al", "Fe", "Ti", "Zr", "Ce"]
  const WaterReactiveSymbols: seq<string> := ["Li", "Na", "K", "Rb", "Cs", "Fr", "Ca", "Sr", "Ba"]
  const AsphyxiantSymbols: seq<string> := ["He", "Ne", "Ar", "Kr", "Xe", "Rn", "N", "H"]
  const PyrophoricSymbols: seq<string> := ["Li", "Na", "K", "Rb", "Cs", "P", "Ce"]
  const OxidizerSymbols: seq<string> := ["O", "F", "Cl", "Br"]
  /** The symbols the closing `switch` has a case for. */
  const SpecialSymbols: seq<string> := ["H", "C", "P", "F", "Hg", "Pb", "Te", "Rn", "W", "Os", "Bi"]

  /** The symbols that earn a badge of kind `k`. */
  function Symbols(k: Kind): seq<string> {
    match k
    case Radioactive => RadioactiveSymbols
    case Toxic => ToxicSymbols
    case ExtremeToxic => ExtremeToxicSymbols
    case Carcinogenic => CarcinogenicSymbols
    case Corrosive => CorrosiveSymbols
    case Flammable => FlammableSymbols
    case WaterReactive => WaterReactiveSymbols
    case Asphyxiant => AsphyxiantSymbols
    case Pyrophoric => PyrophoricSymbols
    case Oxidizer => OxidizerSymbols
    case Special => SpecialSymbols
  }

  /** The fixed badge of a list-driven kind. */
  function Entry(k: Kind): (h: Hazard)
    requires !k.Special?
    ensures h.kind == k
  {
    match k
    case Radioactive => Hazard(k, "Radioactive", "☢️")
    case Toxic => Hazard(k, "Toxic", "☠️")
    case ExtremeToxic => Hazard(k, "Extremely Toxic", "⚠️")
    case Carcinogenic => Hazard(k, "Carcinogenic", "🧬")
    case Corrosive => Hazard(k, "Corrosive", "🧪")
    case Flammable => Hazard(k, "Flammable", "🔥")
    case WaterReactive => Hazard(k, "Reacts with Water", "💧")
    case Asphyxiant => Hazard(k, "Asphyxiant at High Concentrations", "😮‍💨")
    case Pyrophoric => Hazard(k, "Pyrophoric", "💥")
    case Oxidizer => Hazard(k, "Oxidizer", "⚗️")
  }

  /** The `switch (symbol)` at the end: at most one special note per symbol. */
  function SpecialNote(symbol: string): (r: Option<Hazard>)
    ensures r.Some? <==> symbol in SpecialSymbols
    ensures r.Some? ==> r.value.kind == Special
  {
    if symbol == "H" then Some(Hazard(Special, "Invisible flame", "👻"))
    else if symbol == "C" then Some(Hazard(Special, "Dust can be explosive", "💨"))
    else if symbol == "P" then Some(Hazard(Special, "White phosphorus glows in dark", "✨"))
    else if symbol == "F" then Some(Hazard(Special, "Most reactive non-metal", "⚡"))
    else if symbol == "Hg" then Some(Hazard(Special, "Bioaccumulates", "🧠"))
    else if symbol == "Pb" then Some(Hazard(Special, "Neurotoxin", "🧠"))
    else if symbol == "Te" then Some(Hazard(Special, "Causes garlic breath", "🧄"))
    else if symbol == "Rn" then Some(Hazard(Special, "Accumulates in buildings", "🏠"))
    else if symbol == "W" then Some(Hazard(Special, "Highest melting point", "🔆"))
    else if symbol == "Os" then Some(Hazard(Special, "Densest natural element", "🏋️"))
    else if symbol == "Bi" then Some(Hazard(Special, "Used in medicines for stomach upset", "💊"))
    else None
  }

  function KindsOf(hs: seq<Hazard>): (ks: seq<Kind>)
    ensures |ks| == |hs|
  {
    seq(|hs|, i requires 0 <= i < |hs| => hs[i].kind)
  }

  /** Kinds appear in strictly increasing check order. */
  predicate Ranked(hs: seq<Hazard>) {
    forall i, j :: 0 <= i < j < |hs| ==> Rank(hs[i].kind) < Rank(hs[j].kind)
  }

  predicate RankedKinds(ks: seq<Kind>) {
    forall i, j :: 0 <= i < j < |ks| ==> Rank(ks[i]) < Rank(ks[j])
  }

  /** The run of `if (list.includes(symbol)) hazards.push(...)` blocks for the
      kinds in `kinds`, in that order; `flagged(k)` says whether the symbol is
      on the list of `k`. */
  function Checks(kinds: seq<Kind>, flagged: Kind -> bool): (hs: seq<Hazard>)
    requires forall i :: 0 <= i < |kinds| ==> !kinds[i].Special?
    ensures forall i :: 0 <= i < |hs| ==>
      hs[i].kind in kinds && flagged(hs[i].kind) && !hs[i].kind.Special? && hs[i] == Entry(hs[i].kind)
    ensures RankedKinds(kinds) ==> Ranked(hs)
    decreases |kinds|
  {
    if |kinds| == 0 then []
    else
      var rest := Checks(kinds[1..], flagged);
      var head := if flagged(kinds[0]) then [Entry(kinds[0])] else [];
      ChecksStep(kinds, head, rest);
      head + rest
  }

  /** Prepending the first check keeps the list ranked, and every kind it
      reports comes from `kinds`. */
  lemma ChecksStep(kinds: seq<Kind>, head: seq<Hazard>, rest: seq<Hazard>)
    requires |kinds| > 0 && |head| <= 1
    requires forall i :: 0 <= i < |head| ==> head[i].kind == kinds[0]
    requires forall i :: 0 <= i < |rest| ==> rest[i].kind in kinds[1..]
    requires RankedKinds(kinds[1..]) ==> Ranked(rest)
    ensures forall i :: 0 <= i < |head + rest| ==> (head + rest)[i].kind in kinds
    ensures RankedKinds(kinds) ==> Ranked(head + rest)
  {
    if RankedKinds(kinds) {
      forall i | 0 <= i < |rest| ensures Rank(kinds[0]) < Rank(rest[i].kind) {
        var j :| 0 <= j < |kinds[1..]| && kinds[1..][j] == rest[i].kind;
        assert kinds[j + 1] == rest[i].kind;
      }
    }
  }

  /** Every kind in `kinds` whose list holds the symbol is reported. */
  lemma {:induction false} ChecksComplete(kinds: seq<Kind>, flagged: Kind -> bool)
    requires forall i :: 0 <= i < |kinds| ==> !kinds[i].Special?
    ensures forall k :: k in kinds && flagged(k) ==> k in KindsOf(Checks(kinds, flagged))
    decreases |kinds|
  {
    if |kinds| > 0 {
      ChecksComplete(kinds[1..], flagged);
      forall k | k in kinds && flagged(k) ensures k in KindsOf(Checks(kinds, flagged)) {
        ChecksHas(kinds, flagged, k);
      }
    }
  }

  /** One step of `ChecksComplete`: a flagged kind is reported by the first
      check or, by hypothesis, by the later ones. */
  lemma ChecksHas(kinds: seq<Kind>, flagged: Kind -> bool, k: Kind)
    requires forall i :: 0 <= i < |kinds| ==> !kinds[i].Special?
    requires |kinds| > 0 && k in kinds && flagged(k)
    requires k in kinds[1..] ==> k in KindsOf(Checks(kinds[1..], flagged))
    ensures k in KindsOf(Checks(kinds, flagged))
  {
    var rest := Checks(kinds[1..], flagged);
    var hs := Checks(kinds, flagged);
    if k == kinds[0] {
      assert hs == [Entry(k)] + rest;
      assert KindsOf(hs)[0] == k;
    } else {
      assert k in kinds[1..];
      var j :| 0 <= j < |rest| && KindsOf(rest)[j] == k;
      assert hs[|hs| - |rest| + j] == rest[j];
      assert KindsOf(hs)[|hs| - |rest| + j] == k;
    }
  }

  /** Whether `symbol` is on the list of kind `k`. */
  function OnListOf(symbol: string): (flagged: Kind -> bool)
    ensures forall k :: flagged(k) <==> symbol in Symbols(k)
  {
    k => symbol in Symbols(k)
  }

  lemma ListedIsRanked()
    ensures RankedKinds(Listed)
    ensures forall i :: 0 <= i < |Listed| ==> !Listed[i].Special?
    ensures forall k :: k in Listed <==> !k.Special?
  {
  }

  /** `getHazardData(element)`: no element gives no badges; otherwise one badge
      per list the symbol is in, in check order, then the special note. */
  function GetHazardData(e: Option<Element>): (hs: seq<Hazard>)
    ensures e.None? ==> hs == []
    ensures Ranked(hs)
    ensures forall k :: k in KindsOf(hs) <==> e.Some? && e.value.symbol in Symbols(k)
    ensures forall i :: 0 <= i < |hs| && !hs[i].kind.Special? ==> hs[i] == Entry(hs[i].kind)
    ensures forall i :: 0 <= i < |hs| && hs[i].kind.Special? ==> Some(hs[i]) == SpecialNote(e.value.symbol)
  {
    if e.None? then []
    else
      var flagged := OnListOf(e.value.symbol);
      var note := SpecialNote(e.value.symbol);
      assert Symbols(Special) == SpecialSymbols;
      BadgeKinds(flagged, note);
      Badges(flagged, note)
  }

  /** When the note is there exactly when the special list is flagged, the
      badge kinds are exactly the flagged ones. */
  lemma BadgeKinds(flagged: Kind -> bool, note: Option<Hazard>)
    requires note.Some? ==> note.value.kind == Special
    requires note.Some? <==> flagged(Special)
    ensures forall k :: k in KindsOf(Badges(flagged, note)) <==> flagged(k)
  {
  }

  /** The badges for a symbol whose lists are given by `flagged` and whose
      special note is `note`. */
  function Badges(flagged: Kind -> bool, note: Option<Hazard>): (hs: seq<Hazard>)
    requires note.Some? ==> note.value.kind == Special
    ensures Ranked(hs)
    ensures forall k :: k in KindsOf(hs) <==> if k.Special? then note.Some? else flagged(k)
    ensures forall i :: 0 <= i < |hs| && !hs[i].kind.Special? ==> hs[i] == Entry(hs[i].kind)
    ensures forall i :: 0 <= i < |hs| && hs[i].kind.Special? ==> Some(hs[i]) == note
  {
    ListedIsRanked();
    var listed := Checks(Listed, flagged);
    ChecksComplete(Listed, flagged);
    var special := if note.Some? then [note.value] else [];
    Assemble(listed, special, flagged, note);
    listed + special
  }

  /** The list-driven badges followed by the optional note form a ranked list
      whose kinds are exactly the flagged ones, plus `Special` when there is a
      note. */
  lemma Assemble(listed: seq<Hazard>, special: seq<Hazard>, flagged: Kind -> bool, note: Option<Hazard>)
    requires forall i :: 0 <= i < |listed| ==>
      listed[i].kind in Listed && flagged(listed[i].kind) && !listed[i].kind.Special? && listed[i] == Entry(listed[i].kind)
    requires forall k :: k in Listed && flagged(k) ==> k in KindsOf(listed)
    requires Ranked(listed)
    requires forall k :: k in Listed <==> !k.Special?
    requires note.Some? ==> note.value.kind == Special
    requires special == if note.Some? then [note.value] else []
    ensures Ranked(listed + special)
    ensures forall k :: k in KindsOf(listed + special) <==> if k.Special? then note.Some? else flagged(k)
    ensures forall i :: 0 <= i < |listed + special| && !(listed + special)[i].kind.Special? ==>
      (listed + special)[i] == Entry((listed + special)[i].kind)
    ensures forall i :: 0 <= i < |listed + special| && (listed + special)[i].kind.Special? ==>
      Some((listed + special)[i]) == note
  {
    AppendNoteRanked(listed, special);
    forall k ensures k in KindsOf(listed + special) <==> if k.Special? then note.Some? else flagged(k) {
      AssembleKind(listed, special, flagged, note, k);
    }
  }

  /** The note, whose rank is the largest, can follow any ranked list of
      list-driven badges. */
  lemma AppendNoteRanked(listed: seq<Hazard>, special: seq<Hazard>)
    requires Ranked(listed)
    requires forall i :: 0 <= i < |listed| ==> !listed[i].kind.Special?
    requires |special| <= 1
    requires forall i :: 0 <= i < |special| ==> special[i].kind.Special?
    ensures Ranked(listed + special)
  {
  }

  lemma AssembleKind(listed: seq<Hazard>, special: seq<Hazard>, flagged: Kind -> bool, note: Option<Hazard>, k: Kind)
    requires forall i :: 0 <= i < |listed| ==> flagged(listed[i].kind) && !listed[i].kind.Special?
    requires forall k :: k in Listed && flagged(k) ==> k in KindsOf(listed)
    requires forall k :: k in Listed <==> !k.Special?
    requires note.Some? ==> note.value.kind == Special
    requires special == if note.Some? then [note.value] else []
    ensures k in KindsOf(listed + special) <==> if k.Special? then note.Some? else flagged(k)
  {
    var hs := listed + special;
    if k in KindsOf(hs) {
      var i :| 0 <= i < |hs| && KindsOf(hs)[i] == k;
      if i < |listed| {
        assert listed[i].kind == k;
      } else {
        assert special[i - |listed|].kind == k;
      }
    }
    if k.Special? && note.Some? {
      assert KindsOf(hs)[|listed|] == k;
    }
    if !k.Special? && flagged(k) {
      assert k in KindsOf(listed);
      var i :| 0 <= i < |listed| && KindsOf(listed)[i] == k;
      assert KindsOf(hs)[i] == k;
    }
  }

  /** Each kind is reported at most once; in particular there is at most one
      special note. */
  lemma EachKindAtMostOnce(e: Option<Element>)
    ensures forall i, j :: 0 <= i < j < |GetHazardData(e)| ==>
      GetHazardData(e)[i].kind != GetHazardData(e)[j].kind
  {
  }

  /** The badges depend on nothing but the symbol. */
  lemma OnlySymbolMatters(a: Element, b: Element)
    requires a.symbol == b.symbol
    ensures GetHazardData(Some(a)) == GetHazardData(Some(b))
  {
  }

  /** A symbol on no list, such as gold's, gets no badge at all. */
  lemma GoldHasNoHazards(e: Element)
    requires e.symbol == "Au"
    ensures GetHazardData(Some(e)) == []
  {
    forall k ensures "Au" !in Symbols(k) {
      GoldOnNoList(k);
    }
    NoListNoBadge(GetHazardData(Some(e)), "Au");
  }

  lemma NoListNoBadge(hs: seq<Hazard>, symbol: string)
    requires forall k :: k in KindsOf(hs) <==> symbol in Symbols(k)
    requires forall k :: symbol !in Symbols(k)
    ensures hs == []
  {
    if |hs| > 0 {
      FirstIsMember(KindsOf(hs));
      assert false;
    }
  }

  lemma FirstIsMember(ks: seq<Kind>)
    requires |ks| > 0
    ensures ks[0] in ks
  {
  }

  lemma GoldOnNoList(k: Kind)
    ensures "Au" !in Symbols(k)
  {
    match k {
      case Radioactive => assert "Au" !in RadioactiveSymbols;
      case Toxic => assert "Au" !in ToxicSymbols;
      case ExtremeToxic =>
      case Carcinogenic =>
      case Corrosive =>
      case Flammable =>
      case WaterReactive =>
      case Asphyxiant =>
      case Pyrophoric =>
      case Oxidizer =>
      case Special =>
    }
  }

  /** Every extremely toxic symbol is also on the toxic list. */
  lemma ExtremeToxicIsToxic(e: Option<Element>)
    ensures ExtremeToxic in KindsOf(GetHazardData(e)) ==> Toxic in KindsOf(GetHazardData(e))
  {
    if e.Some? {
      ExtremeListInToxicList(e.value.symbol);
    }
  }

  lemma ExtremeListInToxicList(symbol: string)
    ensures symbol in ExtremeToxicSymbols ==> symbol in ToxicSymbols
  {
    var t := ToxicSymbols;
    assert ExtremeToxicSymbols == [t[2], t[3], t[4], t[1], t[0], t[5], t[7], t[9]];
  }

  /** Fluorine collects toxic, extremely toxic, corrosive and oxidizer badges,
      in that order, followed by its special note. */
  lemma FluorineHazards(e: Element)
    requires e.symbol == "F"
    ensures KindsOf(GetHazardData(Some(e))) == FluorineKinds
    ensures GetHazardData(Some(e))[4].caption == "Most reactive non-metal"
  {
    FluorineKindsOf(e);
    var hs := GetHazardData(Some(e));
    assert KindsOf(hs)[4] == Special;
    FluorineNote();
    NoteAt(hs, SpecialNote(e.symbol), 4);
  }

  lemma FluorineKindsOf(e: Element)
    requires e.symbol == "F"
    ensures KindsOf(GetHazardData(Some(e))) == FluorineKinds
  {
    var hs := GetHazardData(Some(e));
    forall k ensures k in KindsOf(hs) <==> k in FluorineKinds {
      FluorineLists(k);
    }
    FluorineKindsRanked();
    KindsFromMembers(hs, FluorineKinds);
  }

  /** A special badge is the note itself. */
  lemma NoteAt(hs: seq<Hazard>, note: Option<Hazard>, i: nat)
    requires forall i :: 0 <= i < |hs| && hs[i].kind.Special? ==> Some(hs[i]) == note
    requires i < |hs| && hs[i].kind.Special?
    ensures note.Some? && hs[i] == note.value
  {
  }

  const FluorineKinds: seq<Kind> := [Toxic, ExtremeToxic, Corrosive, Oxidizer, Special]

  lemma FluorineKindsRanked()
    ensures RankedKinds(FluorineKinds)
  {
  }

  lemma FluorineNote()
    ensures SpecialNote("F") == Some(Hazard(Special, "Most reactive non-metal", "⚡"))
  {
  }

  /** A ranked badge list lists its kinds in rank order. */
  lemma KindsFromMembers(hs: seq<Hazard>, ks: seq<Kind>)
    requires Ranked(hs) && RankedKinds(ks)
    requires forall k :: k in KindsOf(hs) <==> k in ks
    ensures KindsOf(hs) == ks
  {
    RankedOrder(KindsOf(hs), ks);
  }

  lemma FluorineLists(k: Kind)
    ensures "F" in Symbols(k) <==> k in FluorineKinds
  {
    match k {
      case Radioactive => assert "F" !in RadioactiveSymbols;
      case Toxic => assert ToxicSymbols[9] == "F";
      case ExtremeToxic => assert ExtremeToxicSymbols[7] == "F";
      case Carcinogenic =>
      case Corrosive => assert CorrosiveSymbols[0] == "F";
      case Flammable =>
      case WaterReactive =>
      case Asphyxiant =>
      case Pyrophoric =>
      case Oxidizer => assert OxidizerSymbols[1] == "F";
      case Special => assert SpecialSymbols[3] == "F";
    }
  }

  /** Two rank-ordered kind lists with the same members are the same list. */
  lemma {:induction false} RankedOrder(a: seq<Kind>, b: seq<Kind>)
    requires RankedKinds(a) && RankedKinds(b)
    requires forall k :: k in a <==> k in b
    ensures a == b
    decreases |a|
  {
    if |a| == 0 {
      if |b| > 0 {
        FirstIsMember(b);
        assert false;
      }
    } else {
      assert a[0] in b && |b| > 0 && b[0] in a;
      assert Rank(a[0]) == Rank(b[0]);
      RankInjective(a[0], b[0]);
      forall k
        ensures k in a[1..] <==> k in b[1..]
      {
        if k in a[1..] {
          var i :| 1 <= i < |a| && a[i] == k;
          assert k in a && Rank(a[0]) < Rank(k);
          assert k in b;
          var j :| 0 <= j < |b| && b[j] == k;
          assert j != 0;
          assert b[1..][j - 1] == k;
        }
        if k in b[1..] {
          var j :| 1 <= j < |b| && b[j] == k;
          assert k in b && Rank(b[0]) < Rank(k);
          assert k in a;
          var i :| 0 <= i < |a| && a[i] == k;
          assert i != 0;
          assert a[1..][i - 1] == k;
        }
      }
      RankedOrder(a[1..], b[1..]);
      assert a == [a[0]] + a[1..];
      assert b == [b[0]] + b[1..];
    }
  }

  lemma RankInjective(a: Kind, b: Kind)
    ensures Rank(a) == Rank(b) ==> a == b
  {
  }

  /** The `type` strings of different kinds differ. */
  lemma TypeNamesDistinct(a: Kind, b: Kind)
    ensures TypeName(a) == TypeName(b) ==> a == b
  {
  }
}
