/**
 * The positional substitution shared by the range and map placeholders: the template's
 * `{0}` is replaced by the second argument, then `{1}` by the third, and so on, each
 * step working on the text the previous step produced.
 */
module Substitution {
  import opened JavaStrings

  /** The marker `{k}` that the argument at index k + 1 replaces. */
  function Marker(k: nat): (r: String)
    ensures |r| >= 3 && r[0] == '{' && r[|r| - 1] == '}'
    ensures r[1..|r| - 1] == NatToString(k)
  {
    "{" + NatToString(k) + "}"
  }

  /**
   * The template after the replacements for `args[1..]`; `args[0]` is the lookup key and
   * is never substituted.
   */
  function Substituted(template: String, args: seq<String>): String
    decreases |args|
  {
    if |args| <= 1 then template
    else Replace(Substituted(template, args[..|args| - 1]), Marker(|args| - 2), args[|args| - 1])
  }

  /** `applyArgs`: the replacement loop, in the order the plugin performs it. */
  method ApplyArgs(template: String, args: seq<String>) returns (out: String)
    ensures out == Substituted(template, args)
  {
    out := template;
    var i := 1;
    while i < |args|
      invariant 1 <= i && (|args| >= 1 ==> i <= |args|)
      invariant i <= |args| ==> out == Substituted(template, args[..i])
      invariant |args| < i ==> out == template
    {
      assert args[..i + 1][..i] == args[..i];
      out := Replace(out, Marker(i - 1), args[i]);
      i := i + 1;
    }
    if i <= |args| {
      assert args[..i] == args;
    }
  }

  lemma MarkersZeroAndOne()
    ensures Marker(0) == "{0}" && Marker(1) == "{1}"
  {
  }

  /** With exactly one argument to substitute, only `{0}` is replaced. */
  lemma SubstitutedOneArgument(template: String, key: String, arg: String)
    ensures Substituted(template, [key, arg]) == Replace(template, "{0}", arg)
  {
    assert [key, arg][..1] == [key];
    MarkersZeroAndOne();
  }

  /** A template that contains no `{` is returned as it is, whatever the arguments. */
  lemma {:induction false} SubstitutedWithoutBraces(template: String, args: seq<String>)
    requires forall i :: 0 <= i < |template| ==> template[i] != '{'
    ensures Substituted(template, args) == template
    decreases |args|
  {
    if |args| > 1 {
      SubstitutedWithoutBraces(template, args[..|args| - 1]);
      var m := Marker(|args| - 2);
      assert !Contains(template, m) by {
        forall i | 0 <= i <= |template| - |m| ensures !OccursAt(template, m, i) {
          assert template[i] != m[0];
        }
      }
      ReplaceWithoutMatch(template, m, args[|args| - 1]);
    }
  }

  /** The one marker `{0}` of a brace-free text is replaced by the second argument. */
  lemma SubstitutedFirstMarker(before: String, after: String, key: String, arg: String)
    requires forall i :: 0 <= i < |before| ==> before[i] != '{'
    requires forall i :: 0 <= i < |after| ==> after[i] != '{'
    ensures Substituted(before + "{0}" + after, [key, arg]) == before + arg + after
  {
    var s := before + "{0}" + after;
    SubstitutedOneArgument(s, key, arg);
    assert "{0}"[0] == '{';
    ReplaceAfterPrefix(before, "{0}", after, arg);
    NoFirstMarker(after);
    ReplaceWithoutMatch(after, "{0}", arg);
  }

  lemma NoFirstMarker(s: String)
    requires forall i :: 0 <= i < |s| ==> s[i] != '{'
    ensures !Contains(s, "{0}")
  {
    forall i | 0 <= i <= |s| - 3 ensures !OccursAt(s, "{0}", i) {
      assert s[i] != '{';
    }
  }

  /**
   * The documented example: `otherCommand {0} %another_placeholder%` with arguments
   * `95::PlayerName` gives `otherCommand PlayerName %another_placeholder%`.
   */
  lemma DocumentedExample()
    ensures Substituted("otherCommand {0} %another_placeholder%", ["95", "PlayerName"])
         == "otherCommand PlayerName %another_placeholder%"
  {
    var before, after := "otherCommand ", " %another_placeholder%";
    ExampleTemplate(before, after);
    ExampleResult(before, after);
    NoBraceIn(before);
    NoBraceIn(after);
    SubstitutedFirstMarker(before, after, "95", "PlayerName");
  }

  lemma ExampleTemplate(before: String, after: String)
    requires before == "otherCommand " && after == " %another_placeholder%"
    ensures "otherCommand {0} %another_placeholder%" == before + "{0}" + after
  {
  }

  lemma ExampleResult(before: String, after: String)
    requires before == "otherCommand " && after == " %another_placeholder%"
    ensures before + "PlayerName" + after == "otherCommand PlayerName %another_placeholder%"
  {
  }

  lemma NoBraceIn(s: String)
    requires s == "otherCommand " || s == " %another_placeholder%"
    ensures forall i :: 0 <= i < |s| ==> s[i] != '{'
  {
  }

  /**
   * Replacements cascade: an argument that itself contains `{1}` is rewritten by the
   * next replacement.
   */
  lemma Cascade(key: String, last: String)
    requires forall i :: 0 <= i < |last| ==> last[i] != '{'
    ensures Substituted("{0}", [key, "{1}", last]) == last
  {
    var args := [key, "{1}", last];
    assert args[..2] == [key, "{1}"];
    SubstitutedFirstMarker("", "", key, "{1}");
    assert Substituted("{0}", args[..2]) == "{1}";
    MarkersZeroAndOne();
    ReplaceAfterPrefix([], "{1}", [], last);
    assert Replace([], "{1}", last) == [];
  }
}
