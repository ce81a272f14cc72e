/**
 `TopologyChecker.isIslEqual` of the staging acceptance tests: whether a
 link (ISL) reported by the controller matches a link of the expected
 topology definition, and the Hamcrest `IslMatcher` built on it.
 */
module TopologyChecker {
  import opened JavaStrings

  datatype PathNode = PathNode(switchId: string, portNo: int)

  /** An `IslInfoData`: only its path is read. */
  datatype IslInfo = IslInfo(path: seq<PathNode>)

  datatype SwitchDef = SwitchDef(name: string, dpId: string)

  /** A `TopologyDefinition.Isl`. */
  datatype IslDef = IslDef(srcSwitch: SwitchDef, srcPort: int, dstSwitch: SwitchDef, dstPort: int)

  /** The answer of the check, or the `IndexOutOfBoundsException` of a path shorter than two nodes. */
  datatype Verdict = Answer(equal: bool) | PathTooShort

  /** Whether one path node is the given end of a link definition. */
  predicate EndMatches(node: PathNode, sw: SwitchDef, port: int) {
    EqualsIgnoreCase(node.switchId, sw.dpId) && node.portNo == port
  }

  /** `isIslEqual(linkDef, islInfoData)`. */
  function IsIslEqual(def: IslDef, isl: IslInfo): (r: Verdict)
    ensures r == PathTooShort <==> |isl.path| < 2
    ensures r.Answer? ==> (r.equal <==>
              && EqualsIgnoreCase(isl.path[0].switchId, def.srcSwitch.dpId)
              && isl.path[0].portNo == def.srcPort
              && EqualsIgnoreCase(isl.path[1].switchId, def.dstSwitch.dpId)
              && isl.path[1].portNo == def.dstPort)
  {
    if |isl.path| < 2 then PathTooShort
    else
      var src := isl.path[0];
      var dst := isl.path[1];
      Answer(EndMatches(src, def.srcSwitch, def.srcPort) && EndMatches(dst, def.dstSwitch, def.dstPort))
  }

  /** Nodes after the first two never change the answer. */
  lemma OnlyFirstTwoNodesCount(def: IslDef, isl: IslInfo, extra: seq<PathNode>)
    requires |isl.path| >= 2
    ensures IsIslEqual(def, IslInfo(isl.path[..2] + extra)) == IsIslEqual(def, isl)
  {
  }

  /** Switch ids compare ignoring case, so a case change of an id keeps the answer. */
  lemma SwitchIdCaseIgnored(def: IslDef, a: PathNode, b: PathNode, a': string, b': string)
    requires EqualsIgnoreCase(a.switchId, a') && EqualsIgnoreCase(b.switchId, b')
    ensures IsIslEqual(def, IslInfo([a, b])) == IsIslEqual(def, IslInfo([a.(switchId := a'), b.(switchId := b')]))
  {
    EqualsIgnoreCaseIsEquivalence(a', a.switchId, def.srcSwitch.dpId);
    EqualsIgnoreCaseIsEquivalence(a.switchId, a', def.srcSwitch.dpId);
    EqualsIgnoreCaseIsEquivalence(b', b.switchId, def.dstSwitch.dpId);
    EqualsIgnoreCaseIsEquivalence(b.switchId, b', def.dstSwitch.dpId);
  }

  /** The check is direction-sensitive: a matched link reported reversed matches only when its two ends coincide. */
  lemma ReversedLinkDoesNotMatch(def: IslDef, a: PathNode, b: PathNode)
    requires IsIslEqual(def, IslInfo([a, b])) == Answer(true)
    requires !EqualsIgnoreCase(def.srcSwitch.dpId, def.dstSwitch.dpId) || def.srcPort != def.dstPort
    ensures IsIslEqual(def, IslInfo([b, a])) == Answer(false)
  {
    if IsIslEqual(def, IslInfo([b, a])) == Answer(true) {
      EqualsIgnoreCaseIsEquivalence(def.srcSwitch.dpId, a.switchId, def.dstSwitch.dpId);
      EqualsIgnoreCaseIsEquivalence(a.switchId, def.srcSwitch.dpId, def.dstSwitch.dpId);
      EqualsIgnoreCaseIsEquivalence(a.switchId, def.dstSwitch.dpId, def.srcSwitch.dpId);
    }
  }

  /** The object handed to `IslMatcher.matches`. */
  datatype Candidate = AnIsl(isl: IslInfo) | NotAnIsl | NullRef

  datatype MatchResult = Matched(matched: bool) | ClassCast | NullPointer | IndexOutOfBounds

  /** `IslMatcher(isl).matches(actualValue)`: the cast, then `isIslEqual`. */
  function Matches(def: IslDef, actual: Candidate): (r: MatchResult)
    ensures actual.AnIsl? ==> (r.Matched? <==> IsIslEqual(def, actual.isl).Answer?)
    ensures actual.AnIsl? && r.Matched? ==> IsIslEqual(def, actual.isl) == Answer(r.matched)
    ensures actual.NotAnIsl? ==> r == ClassCast
    ensures actual.NullRef? ==> r == NullPointer
  {
    match actual
    case NotAnIsl => ClassCast
    case NullRef => NullPointer
    case AnIsl(isl) =>
      match IsIslEqual(def, isl)
      case Answer(b) => Matched(b)
      case PathTooShort => IndexOutOfBounds
  }
}
