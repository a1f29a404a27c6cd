/** The correction map of src/correction.rs: for each descriptor set and
    binding, the kinds of extra bindings a patch has appended after it, in
    the order they were appended. Equality is structural, as derived in the
    source. */
module Correction {
  import opened Words
  import opened Options

  /** What an appended binding is (`#[repr(u16)]`, codes 0, 1 and 2). */
  datatype CorrectionType = SplitCombined | SplitDrefRegular | SplitDrefComparison

  /** The `u16` representation of a tag. */
  function Code(t: CorrectionType): (c: nat)
    ensures c < 3
    ensures FromCode(c) == Some(t)
  {
    match t
    case SplitCombined => 0
    case SplitDrefRegular => 1
    case SplitDrefComparison => 2
  }

  /** The tag with a given code, if there is one. */
  function FromCode(c: nat): (r: Option<CorrectionType>)
    ensures r.Some? <==> c < 3
  {
    if c == 0 then Some(SplitCombined)
    else if c == 1 then Some(SplitDrefRegular)
    else if c == 2 then Some(SplitDrefComparison)
    else None
  }

  /** The corrections appended after one binding, in order. */
  datatype CorrectionBinding = CorrectionBinding(corrections: seq<CorrectionType>)

  /** The bindings of one descriptor set that received corrections. */
  datatype CorrectionSet = CorrectionSet(bindings: map<Word, CorrectionBinding>)

  /** The descriptor sets that received corrections. */
  datatype CorrectionMap = CorrectionMap(sets: map<Word, CorrectionSet>)

  /** The derived `Default` values: nothing appended anywhere. */
  const DEFAULT_BINDING := CorrectionBinding([])
  const DEFAULT_SET := CorrectionSet(map[])
  const DEFAULT_MAP := CorrectionMap(map[])

  /** `bindings.get(&b).cloned().unwrap_or_default()`. */
  function BindingOrDefault(bindings: map<Word, CorrectionBinding>, b: Word): (r: CorrectionBinding)
    ensures b in bindings ==> r == bindings[b]
    ensures b !in bindings ==> r.corrections == []
  {
    if b in bindings then bindings[b] else DEFAULT_BINDING
  }

  /** `sets.get(&s).cloned().map(|v| v.bindings).unwrap_or_default()`. */
  function BindingsOrDefault(sets: map<Word, CorrectionSet>, s: Word): (r: map<Word, CorrectionBinding>)
    ensures s in sets ==> r == sets[s].bindings
    ensures s !in sets ==> r == map[]
  {
    if s in sets then sets[s].bindings else DEFAULT_SET.bindings
  }

  /** `corrections.as_ref().map(|m| m.sets.clone()).unwrap_or_default()`. */
  function SetsOrDefault(m: Option<CorrectionMap>): (r: map<Word, CorrectionSet>)
    ensures m.Some? ==> r == m.value.sets
    ensures m.None? ==> r == map[]
  {
    if m.Some? then m.value.sets else DEFAULT_MAP.sets
  }
}
