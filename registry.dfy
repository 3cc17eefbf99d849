/** The rule registry: the rules the service runs, in registration order. */
module Registry {
  import opened Types
  import ConfigLoader
  import NoWith
  import DanglingSemicolon
  import NoEmptyFinally
  import UnreachableCode
  import NoExitInFinally
  import EmptyBeginEnd
  import UseFreeAndNil
  import CheckAssigned
  import PascalCase
  import OneVarPerLine
  import CamelCase
  import UpperCaseKeywords
  import NoSemicolonBeforeElse
  import ConstructorCallOnInstance

  const NoWithRule := Rule(NoWith.Id, NoWith.Meta, NoWith.DefaultSeverity, NoWith.Create)
  const DanglingSemicolonRule := Rule(DanglingSemicolon.Id, DanglingSemicolon.Meta, DanglingSemicolon.DefaultSeverity, DanglingSemicolon.Create)
  const NoEmptyFinallyRule := Rule(NoEmptyFinally.Id, NoEmptyFinally.Meta, NoEmptyFinally.DefaultSeverity, NoEmptyFinally.Create)
  const UnreachableCodeRule := Rule(UnreachableCode.Id, UnreachableCode.Meta, UnreachableCode.DefaultSeverity, UnreachableCode.Create)
  const NoExitInFinallyRule := Rule(NoExitInFinally.Id, NoExitInFinally.Meta, NoExitInFinally.DefaultSeverity, NoExitInFinally.Create)
  const EmptyBeginEndRule := Rule(EmptyBeginEnd.Id, EmptyBeginEnd.Meta, EmptyBeginEnd.DefaultSeverity, EmptyBeginEnd.Create)
  const UseFreeAndNilRule := Rule(UseFreeAndNil.Id, UseFreeAndNil.Meta, UseFreeAndNil.DefaultSeverity, UseFreeAndNil.Create)
  const CheckAssignedRule := Rule(CheckAssigned.Id, CheckAssigned.Meta, CheckAssigned.DefaultSeverity, CheckAssigned.Create)
  const PascalCaseRule := Rule(PascalCase.Id, PascalCase.Meta, PascalCase.DefaultSeverity, PascalCase.Create)
  const OneVarPerLineRule := Rule(OneVarPerLine.Id, OneVarPerLine.Meta, OneVarPerLine.DefaultSeverity, OneVarPerLine.Create)
  const CamelCaseRule := Rule(CamelCase.Id, CamelCase.Meta, CamelCase.DefaultSeverity, CamelCase.Create)
  const UpperCaseKeywordsRule := Rule(UpperCaseKeywords.Id, UpperCaseKeywords.Meta, UpperCaseKeywords.DefaultSeverity, UpperCaseKeywords.Create)

  /** `allRules`: twelve rules; the last two rule files are not registered. */
  const AllRules: seq<Rule> := [
    NoWithRule, DanglingSemicolonRule, NoEmptyFinallyRule, UnreachableCodeRule, NoExitInFinallyRule,
    EmptyBeginEndRule, UseFreeAndNilRule, CheckAssignedRule,
    PascalCaseRule, OneVarPerLineRule, CamelCaseRule, UpperCaseKeywordsRule]

  function Ids(rules: seq<Rule>): (ids: seq<string>)
    ensures |ids| == |rules|
    ensures forall i :: 0 <= i < |rules| ==> ids[i] == rules[i].id
  {
    seq(|rules|, i requires 0 <= i < |rules| => rules[i].id)
  }

  /** The registration order of the twelve rules. */
  lemma RegistryOrder()
    ensures Ids(AllRules) == [
      "no-with", "dangling-semicolon", "no-empty-finally", "unreachable-code", "no-exit-in-finally",
      "empty-begin-end", "use-free-and-nil", "check-assigned",
      "pascal-case", "one-var-per-line", "camel-case", "upper-case-keywords"]
  {
  }

  /** Registered ids are pairwise distinct. */
  lemma RegistryIdsDistinct()
    ensures forall i, j :: 0 <= i < j < |AllRules| ==> AllRules[i].id != AllRules[j].id
  {
    RegistryOrder();
  }

  /** `no-semicolon-before-else` and `constructor-call-on-instance` have
      defaults but are not registered, so the service never runs them. */
  lemma UnregisteredRules()
    ensures NoSemicolonBeforeElse.Id !in Ids(AllRules) && NoSemicolonBeforeElse.Id in ConfigLoader.GetDefaultRules()
    ensures ConstructorCallOnInstance.Id !in Ids(AllRules) && ConstructorCallOnInstance.Id in ConfigLoader.GetDefaultRules()
  {
    RegistryOrder();
  }

  /** Every registered id has an entry in the default table. */
  lemma RegisteredIdsHaveDefaults()
    ensures forall i :: 0 <= i < |AllRules| ==> AllRules[i].id in ConfigLoader.GetDefaultRules()
  {
    RegistryOrder();
  }
}
