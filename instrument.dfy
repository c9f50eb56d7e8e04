/**
 * The instrument configuration: an ordered list of components, each tagged with
 * its kind and its position, and the lookups that read a component's
 * controlled-vocabulary parameters against the vocabulary tables of mass
 * analyzers, ionization types and detector types.
 */
module Instrument {
  import opened Wrappers

  /** An unsigned 8-bit integer. */
  type u8 = x: int | 0 <= x < 256

  /** An unsigned 32-bit integer. */
  type u32 = x: int | 0 <= x < 0x1_0000_0000

  /** The part of an instrument a component is; the default is Unknown. */
  datatype ComponentType = Analyzer | IonSource | Detector | Unknown

  /** The controlled vocabulary a parameter comes from: the PSI-MS vocabulary or another one. */
  datatype ControlledVocabulary = MS | UO | OtherVocabulary

  /** A parameter: a name and a value, optionally a vocabulary accession number. */
  datatype Param = Param(
    name: string,
    value: string,
    accession: Option<int>,
    controlledVocabulary: Option<ControlledVocabulary>)

  /** `is_ms`: the parameter belongs to the PSI-MS vocabulary. */
  predicate IsMs(p: Param)
  {
    p.controlledVocabulary == Some(MS)
  }

  datatype Component = Component(componentType: ComponentType, order: u8, params: seq<Param>)

  /** `Component::default()`: Unknown, order 0, no parameters. */
  function DefaultComponent(): (c: Component)
    ensures c.componentType == Unknown && c.order == 0 && |c.params| == 0
  {
    Component(Unknown, 0, [])
  }

  // ---------------------------------------------------------------------------
  // Vocabulary terms
  // ---------------------------------------------------------------------------

  /** One vocabulary term: its accession number, its name, the accession numbers of its parents. */
  datatype Term = Term(accession: int, name: string, parents: seq<int>)

  /** `from_accession`: the term of `terms` with this accession number, if there is one. */
  function FindTerm(terms: seq<Term>, accession: int): (r: Option<Term>)
    ensures r.Some? ==> r.value in terms && r.value.accession == accession
    ensures r.None? <==> forall i :: 0 <= i < |terms| ==> terms[i].accession != accession
    decreases |terms|
  {
    if |terms| == 0 then None
    else if terms[0].accession == accession then Some(terms[0])
    else FindTerm(terms[1..], accession)
  }

  /** `parents()`: the parents of a term that are terms of the same table, in the listed order. */
  function ParentTerms(terms: seq<Term>, accessions: seq<int>): (r: seq<Term>)
    ensures |r| <= |accessions|
    ensures forall i :: 0 <= i < |r| ==> r[i] in terms && r[i].accession in accessions
    ensures forall a :: a in accessions && FindTerm(terms, a).Some? ==> FindTerm(terms, a).value in r
    decreases |accessions|
  {
    if |accessions| == 0 then []
    else
      var rest := ParentTerms(terms, accessions[1..]);
      match FindTerm(terms, accessions[0])
      case Some(term) => [term] + rest
      case None => rest
  }

  /** `to_param` of a term: a PSI-MS parameter naming it, with no value. */
  function TermParam(term: Term): (p: Param)
    ensures IsMs(p) && p.accession == Some(term.accession) && p.name == term.name && p.value == ""
  {
    Param(term.name, "", Some(term.accession), Some(MS))
  }

  /** The parents of `term`, each as a parameter. */
  function ParentParams(terms: seq<Term>, term: Term): (r: seq<Param>)
    ensures |r| <= |term.parents|
    ensures forall i :: 0 <= i < |r| ==> IsMs(r[i]) && r[i].value == "" && r[i].accession.Some? && r[i].accession.value in term.parents
  {
    var parents := ParentTerms(terms, term.parents);
    seq(|parents|, i requires 0 <= i < |parents| => TermParam(parents[i]))
  }

  // ---------------------------------------------------------------------------
  // Component lookups
  // ---------------------------------------------------------------------------

  /** The position of the first parameter that `matches`, or `|ps|` when none does. */
  function FirstMatch(ps: seq<Param>, matches: Param -> bool): (i: nat)
    ensures i <= |ps|
    ensures i < |ps| ==> matches(ps[i])
    ensures forall j :: 0 <= j < i ==> !matches(ps[j])
    decreases |ps|
  {
    if |ps| == 0 || matches(ps[0]) then 0 else 1 + FirstMatch(ps[1..], matches)
  }

  /** The parameter carries an accession number that `terms` knows. */
  predicate Names(terms: seq<Term>, p: Param)
  {
    p.accession.Some? && FindTerm(terms, p.accession.value).Some?
  }

  /** An MS parameter that names a term: what the three typed lookups search for. */
  predicate NamesMs(terms: seq<Term>, p: Param)
  {
    IsMs(p) && Names(terms, p)
  }

  /** The term a parameter names. */
  function TermOf(terms: seq<Term>, p: Param): Term
    requires Names(terms, p)
  {
    FindTerm(terms, p.accession.value).value
  }

  /**
   * The term of the first MS parameter whose accession `terms` knows; parameters
   * from other vocabularies, without an accession, or with an unknown one are
   * passed over.
   */
  function FirstMsTerm(terms: seq<Term>, ps: seq<Param>): (r: Option<Term>)
    ensures r.None? <==> forall i :: 0 <= i < |ps| ==> !NamesMs(terms, ps[i])
    ensures r.Some? ==> r.value in terms
    ensures r.Some? ==> exists i :: 0 <= i < |ps| && IsMs(ps[i]) && ps[i].accession == Some(r.value.accession)
    ensures forall i :: 0 <= i < |ps| && NamesMs(terms, ps[i]) && (forall j :: 0 <= j < i ==> !NamesMs(terms, ps[j])) ==>
      r == Some(TermOf(terms, ps[i]))
  {
    var i := FirstMatch(ps, p => NamesMs(terms, p));
    if i < |ps| then Some(TermOf(terms, ps[i])) else None
  }

  /** The three term tables the component lookups read. */
  datatype Vocabulary = Vocabulary(massAnalyzers: seq<Term>, ionizationTypes: seq<Term>, detectorTypes: seq<Term>)

  /** The tables generated from the PSI-MS vocabulary (at the end of this module). */
  function PsiMs(): Vocabulary
  {
    Vocabulary(MassAnalyzerTerms(), IonizationTypeTerms(), DetectorTypeTerms())
  }

  /** `Component::mass_analyzer`: the first MS parameter naming a mass analyzer term. */
  function MassAnalyzer(v: Vocabulary, c: Component): (r: Option<Term>)
    ensures r.Some? ==> r.value in v.massAnalyzers
    ensures r.Some? ==> exists i :: 0 <= i < |c.params| && IsMs(c.params[i]) && c.params[i].accession == Some(r.value.accession)
  {
    FirstMsTerm(v.massAnalyzers, c.params)
  }

  /** `Component::ionization_type`: the first MS parameter naming an ionization type term. */
  function IonizationType(v: Vocabulary, c: Component): (r: Option<Term>)
    ensures r.Some? ==> r.value in v.ionizationTypes
    ensures r.Some? ==> exists i :: 0 <= i < |c.params| && IsMs(c.params[i]) && c.params[i].accession == Some(r.value.accession)
  {
    FirstMsTerm(v.ionizationTypes, c.params)
  }

  /** `Component::detector`: the first MS parameter naming a detector type term. */
  function DetectorType(v: Vocabulary, c: Component): (r: Option<Term>)
    ensures r.Some? ==> r.value in v.detectorTypes
    ensures r.Some? ==> exists i :: 0 <= i < |c.params| && IsMs(c.params[i]) && c.params[i].accession == Some(r.value.accession)
  {
    FirstMsTerm(v.detectorTypes, c.params)
  }

  /** The table that goes with a kind of component; Unknown has none. */
  function KindTerms(v: Vocabulary, kind: ComponentType): seq<Term>
  {
    match kind
    case Analyzer => v.massAnalyzers
    case IonSource => v.ionizationTypes
    case Detector => v.detectorTypes
    case Unknown => []
  }

  /** The typed lookup that goes with the component's own kind. */
  function KindLookup(v: Vocabulary, c: Component): Option<Term>
  {
    if c.componentType == Unknown then None else FirstMsTerm(KindTerms(v, c.componentType), c.params)
  }

  /** An MS parameter that has an accession number, known or not. */
  predicate HasMsAccession(p: Param)
  {
    IsMs(p) && p.accession.Some?
  }

  /**
   * The name lookup over one table: the name of the term named by the first MS
   * parameter that has an accession number.  When that accession is not in the
   * table the lookup panics (`unwrap`): `Err` carries the accession.
   */
  function NameIn(terms: seq<Term>, ps: seq<Param>): (r: Result<Option<string>, int>)
    ensures r == Ok(None) <==> forall i :: 0 <= i < |ps| ==> !HasMsAccession(ps[i])
    ensures r.Err? ==> exists i :: 0 <= i < |ps| && IsMs(ps[i]) && ps[i].accession == Some(r.error) && !Names(terms, ps[i])
    ensures forall i :: 0 <= i < |ps| && HasMsAccession(ps[i]) && (forall j :: 0 <= j < i ==> !HasMsAccession(ps[j])) ==>
      r == if Names(terms, ps[i]) then Ok(Some(TermOf(terms, ps[i]).name)) else Err(ps[i].accession.value)
  {
    var i := FirstMatch(ps, HasMsAccession);
    if i == |ps| then Ok(None)
    else
      var accession := ps[i].accession.value;
      match FindTerm(terms, accession)
      case None => Err(accession)
      case Some(term) => Ok(Some(term.name))
  }

  /**
   * `Component::name`: the name lookup in the table of the component's kind.
   * When it does not panic it is the name of the term the typed lookup of that
   * kind finds.
   */
  function Name(v: Vocabulary, c: Component): (r: Result<Option<string>, int>)
    ensures c.componentType == Unknown ==> r == Ok(None)
    ensures c.componentType != Unknown ==>
      (r == Ok(None) <==> forall i :: 0 <= i < |c.params| ==> !HasMsAccession(c.params[i]))
    ensures r.Err? ==>
      exists i :: (0 <= i < |c.params| && IsMs(c.params[i]) && c.params[i].accession == Some(r.error)
                   && !Names(KindTerms(v, c.componentType), c.params[i]))
    ensures r.Ok? ==> r.value == match KindLookup(v, c) case None => None case Some(term) => Some(term.name)
  {
    if c.componentType == Unknown then Ok(None)
    else
      NameAgreesWithLookup(KindTerms(v, c.componentType), c.params);
      NameIn(KindTerms(v, c.componentType), c.params)
  }

  /**
   * The parent lookup over one table: the parents of the term named by the
   * first parameter whose accession the table knows, whatever its vocabulary;
   * empty when there is none.
   */
  function ParentTypesIn(terms: seq<Term>, ps: seq<Param>): (r: seq<Param>)
    ensures forall i :: 0 <= i < |r| ==> IsMs(r[i]) && r[i].value == ""
    ensures (forall i :: 0 <= i < |ps| ==> !Names(terms, ps[i])) ==> r == []
    ensures forall i :: 0 <= i < |ps| && Names(terms, ps[i]) && (forall j :: 0 <= j < i ==> !Names(terms, ps[j])) ==>
      r == ParentParams(terms, TermOf(terms, ps[i]))
  {
    var i := FirstMatch(ps, p => Names(terms, p));
    if i == |ps| then [] else ParentParams(terms, TermOf(terms, ps[i]))
  }

  /**
   * `Component::parent_types`: the parent lookup in the table of the
   * component's kind.  When only MS parameters name terms of that table, it
   * gives the parents of the term the typed lookup of that kind finds.
   */
  function ParentTypes(v: Vocabulary, c: Component): (r: seq<Param>)
    ensures c.componentType == Unknown ==> r == []
    ensures forall i :: 0 <= i < |r| ==> IsMs(r[i]) && r[i].value == ""
    ensures (forall i :: 0 <= i < |c.params| && Names(KindTerms(v, c.componentType), c.params[i]) ==> IsMs(c.params[i])) ==>
      r == match KindLookup(v, c) case None => [] case Some(term) => ParentParams(KindTerms(v, c.componentType), term)
  {
    if c.componentType == Unknown then []
    else
      var terms := KindTerms(v, c.componentType);
      if forall i :: 0 <= i < |c.params| && Names(terms, c.params[i]) ==> IsMs(c.params[i]) then
        ParentTypesOfLookup(terms, c.params);
        ParentTypesIn(terms, c.params)
      else ParentTypesIn(terms, c.params)
  }

  /**
   * When `name` does not panic it agrees with the typed lookup: both stop at
   * the first MS parameter with an accession, and a known accession there is
   * the first that the typed lookup accepts.
   */
  lemma NameAgreesWithLookup(terms: seq<Term>, ps: seq<Param>)
    ensures NameIn(terms, ps).Ok? ==>
      NameIn(terms, ps).value == match FirstMsTerm(terms, ps) case None => None case Some(term) => Some(term.name)
  {
    var i := FirstMatch(ps, HasMsAccession);
    if i < |ps| && Names(terms, ps[i]) {
      assert NamesMs(terms, ps[i]);
      assert forall j :: 0 <= j < i ==> !NamesMs(terms, ps[j]);
    } else if i == |ps| {
      assert forall j :: 0 <= j < |ps| ==> !NamesMs(terms, ps[j]);
    }
  }

  /**
   * `parent_types` does not filter on the vocabulary; when every parameter that
   * names a term is an MS parameter it returns the parents of the term the
   * typed lookup finds.
   */
  lemma ParentTypesOfLookup(terms: seq<Term>, ps: seq<Param>)
    requires forall i :: 0 <= i < |ps| && Names(terms, ps[i]) ==> IsMs(ps[i])
    ensures ParentTypesIn(terms, ps) == match FirstMsTerm(terms, ps) case None => [] case Some(term) => ParentParams(terms, term)
  {
    var i := FirstMatch(ps, p => Names(terms, p));
    if i < |ps| {
      assert NamesMs(terms, ps[i]);
      assert forall j :: 0 <= j < i ==> !NamesMs(terms, ps[j]);
    } else {
      assert forall j :: 0 <= j < |ps| ==> !NamesMs(terms, ps[j]);
    }
  }

  /** Two entries of the mass analyzer table: quadrupole and its parent. */
  const QuadrupoleExcerpt: seq<Term> :=
    [Term(1000081, "quadrupole", [1000443]), Term(1000443, "mass analyzer type", [])]

  /**
   * An analyzer whose quadrupole is named by a parameter of another vocabulary:
   * the typed lookup and the name lookup pass it over, the parent lookup still
   * reports the quadrupole's parent.
   */
  lemma ForeignVocabularyParam()
    ensures var v := Vocabulary(QuadrupoleExcerpt, [], []);
      var c := Component(Analyzer, 0, [Param("quadrupole", "", Some(1000081), Some(OtherVocabulary))]);
      && MassAnalyzer(v, c) == None
      && Name(v, c) == Ok(None)
      && ParentTypes(v, c) == [TermParam(Term(1000443, "mass analyzer type", []))]
  {
    var ps := [Param("quadrupole", "", Some(1000081), Some(OtherVocabulary))];
    assert Names(QuadrupoleExcerpt, ps[0]);
    assert ParentTerms(QuadrupoleExcerpt, [1000443]) == [Term(1000443, "mass analyzer type", [])];
  }

  /**
   * An analyzer whose first MS parameter has an accession the table lacks: the
   * name lookup panics on it, while the typed lookup goes on to the quadrupole.
   */
  lemma UnknownMsAccessionPanics()
    ensures var v := Vocabulary(QuadrupoleExcerpt, [], []);
      var c := Component(Analyzer, 0, [Param("", "", Some(1000999), Some(MS)), Param("quadrupole", "", Some(1000081), Some(MS))]);
      && Name(v, c) == Err(1000999)
      && MassAnalyzer(v, c) == Some(QuadrupoleExcerpt[0])
  {
    var ps := [Param("", "", Some(1000999), Some(MS)), Param("quadrupole", "", Some(1000081), Some(MS))];
    assert !Names(QuadrupoleExcerpt, ps[0]);
    assert NamesMs(QuadrupoleExcerpt, ps[1]);
  }

  // ---------------------------------------------------------------------------
  // The instrument configuration
  // ---------------------------------------------------------------------------

  class InstrumentConfiguration {
    var components: seq<Component>
    /** Parameters describing the instrument as a whole (model, serial number). */
    var params: seq<Param>
    var softwareReference: string
    var id: u32

    /** `InstrumentConfiguration::default()`. */
    constructor ()
      ensures components == [] && params == [] && softwareReference == "" && id == 0
    {
      components := [];
      params := [];
      softwareReference := "";
      id := 0;
    }

    /** `len`. */
    function Len(): nat
      reads this
    {
      |components|
    }

    /** `is_empty`: there is no component, i.e. the length is zero. */
    predicate IsEmpty()
      reads this
      ensures IsEmpty() <==> Len() == 0
    {
      |components| == 0
    }

    /** Each component's order is its position, wrapped to 8 bits. */
    ghost predicate OrdersStamped()
      reads this
    {
      forall i :: 0 <= i < |components| ==> components[i].order == i % 256
    }

    /** `push`: appends the component with its order set to the previous length cast to `u8`. */
    method Push(value: Component)
      modifies this`components
      ensures components == old(components) + [value.(order := old(Len()) % 256)]
      ensures Len() == old(Len()) + 1 && !IsEmpty()
      ensures old(OrdersStamped()) ==> OrdersStamped()
    {
      var n := |components|;
      components := components + [value.(order := n % 256)];
    }

    /** `new_component`: appends a default component of this kind and returns it. */
    method NewComponent(kind: ComponentType) returns (c: Component)
      modifies this`components
      ensures c == DefaultComponent().(componentType := kind, order := old(Len()) % 256)
      ensures components == old(components) + [c]
      ensures old(OrdersStamped()) ==> OrdersStamped()
    {
      var component := DefaultComponent().(componentType := kind);
      Push(component);
      c := components[|components| - 1];
    }
  }

  // ---------------------------------------------------------------------------
  // The term tables
  // ---------------------------------------------------------------------------

  function MassAnalyzerTerms(): seq<Term>
  {
    [
      Term(1000078, "axial ejection linear ion trap", [1000291]),
      Term(1000079, "fourier transform ion cyclotron resonance mass spectrometer", [1000443]),
      Term(1000080, "magnetic sector", [1000443]),
      Term(1000081, "quadrupole", [1000443]),
      Term(1000082, "quadrupole ion trap", [1000264]),
      Term(1000083, "radial ejection linear ion trap", [1000291]),
      Term(1000084, "time-of-flight", [1000443]),
      Term(1000254, "electrostatic energy analyzer", [1000443]),
      Term(1000264, "ion trap", [1000443]),
      Term(1000284, "stored waveform inverse fourier transform", [1000443]),
      Term(1000288, "cyclotron", [1000443]),
      Term(1000291, "linear ion trap", [1000264]),
      Term(1000443, "mass analyzer type", []),
      Term(1000484, "orbitrap", [1000443]),
      Term(1003379, "asymmetric track lossless time-of-flight analyzer", [1000084])
    ]
  }

  function IonizationTypeTerms(): seq<Term>
  {
    [
      Term(1000008, "ionization type", []),
      Term(1000070, "atmospheric pressure chemical ionization", [1000240]),
      Term(1000071, "chemical ionization", [1000008]),
      Term(1000073, "electrospray ionization", [1000008]),
      Term(1000074, "fast atom bombardment ionization", [1000008]),
      Term(1000075, "matrix-assisted laser desorption ionization", [1000247]),
      Term(1000227, "multiphoton ionization", [1000008]),
      Term(1000239, "atmospheric pressure matrix-assisted laser desorption ionization", [1000240]),
      Term(1000240, "atmospheric pressure ionization", [1000008]),
      Term(1000247, "desorption ionization", [1000008]),
      Term(1000255, "flowing afterglow", [1000008]),
      Term(1000257, "field desorption", [1000247]),
      Term(1000258, "field ionization", [1000008]),
      Term(1000259, "glow discharge ionization", [1000008]),
      Term(1000271, "Negative Ion chemical ionization", [1000008]),
      Term(1000272, "neutralization reionization mass spectrometry", [1000008]),
      Term(1000273, "photoionization", [1000008]),
      Term(1000274, "pyrolysis mass spectrometry", [1000008]),
      Term(1000276, "resonance enhanced multiphoton ionization", [1000008]),
      Term(1000278, "surface enhanced laser desorption ionization", [1000406]),
      Term(1000279, "surface enhanced neat desorption", [1000406]),
      Term(1000380, "adiabatic ionization", [1000008]),
      Term(1000381, "associative ionization", [1000008]),
      Term(1000382, "atmospheric pressure photoionization", [1000240]),
      Term(1000383, "autodetachment", [1000008]),
      Term(1000384, "autoionization", [1000008]),
      Term(1000385, "charge exchange ionization", [1000008]),
      Term(1000386, "chemi-ionization", [1000008]),
      Term(1000387, "desorption/ionization on silicon", [1000247]),
      Term(1000388, "dissociative ionization", [1000008]),
      Term(1000389, "electron ionization", [1000008]),
      Term(1000393, "laser desorption ionization", [1000247]),
      Term(1000395, "liquid secondary ionization", [1000008]),
      Term(1000397, "microelectrospray", [1000073]),
      Term(1000398, "nanoelectrospray", [1000073]),
      Term(1000399, "penning ionization", [1000008]),
      Term(1000400, "plasma desorption ionization", [1000008]),
      Term(1000402, "secondary ionization", [1000008]),
      Term(1000403, "soft ionization", [1000008]),
      Term(1000404, "spark ionization", [1000008]),
      Term(1000405, "surface-assisted laser desorption ionization", [1000247]),
      Term(1000406, "surface ionization", [1000008]),
      Term(1000407, "thermal ionization", [1000008]),
      Term(1000408, "vertical ionization", [1000008]),
      Term(1000446, "fast ion bombardment", [1000008]),
      Term(1002011, "desorption electrospray ionization", [1000240]),
      Term(1003235, "paper spray ionization", [1000008]),
      Term(1003248, "proton transfer reaction", [1000008]),
      Term(1003249, "proton transfer charge reduction", [1000008])
    ]
  }

  function DetectorTypeTerms(): seq<Term>
  {
    [
      Term(1000026, "detector type", []),
      Term(1000107, "channeltron", [1000026]),
      Term(1000108, "conversion dynode electron multiplier", [1000346]),
      Term(1000109, "conversion dynode photomultiplier", [1000346]),
      Term(1000110, "daly detector", [1000026]),
      Term(1000111, "electron multiplier tube", [1000253]),
      Term(1000112, "faraday cup", [1000026]),
      Term(1000113, "focal plane array", [1000348]),
      Term(1000114, "microchannel plate detector", [1000345]),
      Term(1000115, "multi-collector", [1000026]),
      Term(1000116, "photomultiplier", [1000026]),
      Term(1000253, "electron multiplier", [1000026]),
      Term(1000345, "array detector", [1000026]),
      Term(1000346, "conversion dynode", [1000026]),
      Term(1000347, "dynode", [1000026]),
      Term(1000348, "focal plane collector", [1000026]),
      Term(1000349, "ion-to-photon detector", [1000026]),
      Term(1000350, "point collector", [1000026]),
      Term(1000351, "postacceleration detector", [1000026]),
      Term(1000621, "photodiode array detector", [1000345]),
      Term(1000624, "inductive detector", [1000026]),
      Term(1000818, "Acquity UPLC PDA", [1000126, 1000621]),
      Term(1000819, "Acquity UPLC FLR", [1000126, 1002308]),
      Term(1002308, "fluorescence detector", [1000026])
    ]
  }
}
