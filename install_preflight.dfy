/**
 * The installer's preflight check of PHP extensions (Install::checkExtensions):
 * every required extension that is not loaded is appended to the criticals
 * report, every suggested one that is not loaded to the suggestions report,
 * both under the key "missing_extensions".
 */
module InstallPreflight {

  const RequiredExtensions: seq<string> :=
    ["session", "ctype", "xml", "filter", "posix", "mbstring", "curl", "gmp", "json"]
  const SuggestedExtensions: seq<string> := ["bcmath", "zip"]

  /** The report key the missing extensions are listed under. */
  const MissingKey: string := "missing_extensions"

  /** A report array (criticals or suggestions): a key to the list of entries under it. */
  type Report = map<string, seq<string>>

  /** The wanted extensions that are not loaded, in the order they are wanted. */
  function Missing(wanted: seq<string>, loaded: seq<string>): (missing: seq<string>)
  {
    if wanted == [] then []
    else
      var last := wanted[|wanted| - 1];
      Missing(wanted[..|wanted| - 1], loaded) + (if last in loaded then [] else [last])
  }

  /** `s` can be obtained from `t` by deleting elements. */
  predicate IsSubsequence(s: seq<string>, t: seq<string>)
  {
    if s == [] then true
    else if t == [] then false
    else if s[|s| - 1] == t[|t| - 1] then IsSubsequence(s[..|s| - 1], t[..|t| - 1])
    else IsSubsequence(s, t[..|t| - 1])
  }

  /** An extension is reported missing exactly when it is wanted and not loaded. */
  lemma {:induction false} MissingMembers(wanted: seq<string>, loaded: seq<string>, x: string)
    ensures x in Missing(wanted, loaded) <==> x in wanted && x !in loaded
  {
    if wanted != [] {
      var init := wanted[..|wanted| - 1];
      MissingMembers(init, loaded, x);
      assert wanted == init + [wanted[|wanted| - 1]];
    }
  }

  /** The missing extensions keep the order in which they are wanted. */
  lemma {:induction false} MissingInOrder(wanted: seq<string>, loaded: seq<string>)
    ensures IsSubsequence(Missing(wanted, loaded), wanted)
  {
    if wanted != [] {
      var init := wanted[..|wanted| - 1];
      var last := wanted[|wanted| - 1];
      MissingInOrder(init, loaded);
      assert wanted == init + [last];
      if last in loaded {
        assert Missing(wanted, loaded) == Missing(init, loaded);
        SubsequenceOfLonger(Missing(init, loaded), init, last);
      } else {
        var m := Missing(wanted, loaded);
        assert m[..|m| - 1] == Missing(init, loaded);
      }
    }
  }

  lemma {:induction false} SubsequenceOfLonger(s: seq<string>, t: seq<string>, x: string)
    requires IsSubsequence(s, t)
    ensures IsSubsequence(s, t + [x])
    decreases |t|, 1
  {
    var u := t + [x];
    assert u[..|u| - 1] == t;
    if s != [] && s[|s| - 1] == x {
      SubsequenceDropLast(s, t);
    }
  }

  lemma {:induction false} SubsequenceDropLast(s: seq<string>, t: seq<string>)
    requires s != [] && IsSubsequence(s, t)
    ensures IsSubsequence(s[..|s| - 1], t)
    decreases |t|, 0
  {
    var init := t[..|t| - 1];
    if s[|s| - 1] == t[|t| - 1] {
      SubsequenceOfLonger(s[..|s| - 1], init, t[|t| - 1]);
      assert init + [t[|t| - 1]] == t;
    } else {
      SubsequenceDropLast(s, init);
      SubsequenceOfLonger(s[..|s| - 1], init, t[|t| - 1]);
      assert init + [t[|t| - 1]] == t;
    }
  }

  /** The entries already listed under MissingKey, or none. */
  function Listed(report: Report): (listed: seq<string>)
  {
    if MissingKey in report then report[MissingKey] else []
  }

  /**
   * `$report['missing_extensions'][] = $x` for each `$x` of `missing`: the key
   * is created only when something is appended, and every other key is kept.
   */
  function AppendMissing(report: Report, missing: seq<string>): (r: Report)
    ensures missing == [] ==> r == report
    ensures missing != [] ==> MissingKey in r && Listed(r) == Listed(report) + missing
    ensures forall k :: k != MissingKey ==> (k in r <==> k in report) && (k in report ==> r[k] == report[k])
  {
    if missing == [] then report else report[MissingKey := Listed(report) + missing]
  }

  lemma AppendMissingTwice(report: Report, a: seq<string>, b: seq<string>)
    ensures AppendMissing(AppendMissing(report, a), b) == AppendMissing(report, a + b)
  {
    if a == [] {
      assert a + b == b;
    } else if b == [] {
      assert a + b == a;
    } else {
      assert Listed(report) + a + b == Listed(report) + (a + b);
    }
  }

  /** The preflight result handed to the template (the PHP version text is not part of this model). */
  datatype Preflight = Preflight(suggestions: Report, criticals: Report)

  class Install {
    const requiredExtensions: seq<string>
    const suggestedExtensions: seq<string>
    const loadedExtensions: seq<string>
    var suggestions: Report
    var criticals: Report

    /** The installer's extension lists, with the extensions the running PHP reports as loaded. */
    constructor (loaded: seq<string>)
      ensures requiredExtensions == RequiredExtensions && suggestedExtensions == SuggestedExtensions
      ensures loadedExtensions == loaded
      ensures suggestions == map[] && criticals == map[]
    {
      requiredExtensions := RequiredExtensions;
      suggestedExtensions := SuggestedExtensions;
      loadedExtensions := loaded;
      suggestions := map[];
      criticals := map[];
    }

    /**
     * checkExtensions: appends the missing required extensions to the criticals
     * and the missing suggested ones to the suggestions, leaving what was there.
     */
    method CheckExtensions() returns (preflight: Preflight)
      modifies this
      ensures criticals == AppendMissing(old(criticals), Missing(requiredExtensions, loadedExtensions))
      ensures suggestions == AppendMissing(old(suggestions), Missing(suggestedExtensions, loadedExtensions))
      ensures preflight == Preflight(suggestions, criticals)
    {
      for i := 0 to |requiredExtensions|
        invariant criticals == AppendMissing(old(criticals), Missing(requiredExtensions[..i], loadedExtensions))
        invariant suggestions == old(suggestions)
      {
        var extension := requiredExtensions[i];
        assert requiredExtensions[..i + 1][..i] == requiredExtensions[..i];
        AppendMissingTwice(old(criticals), Missing(requiredExtensions[..i], loadedExtensions),
          if extension in loadedExtensions then [] else [extension]);
        if extension in loadedExtensions {
          continue;
        }
        criticals := AppendMissing(criticals, [extension]);
      }
      assert requiredExtensions[..|requiredExtensions|] == requiredExtensions;

      for i := 0 to |suggestedExtensions|
        invariant suggestions == AppendMissing(old(suggestions), Missing(suggestedExtensions[..i], loadedExtensions))
        invariant criticals == AppendMissing(old(criticals), Missing(requiredExtensions, loadedExtensions))
      {
        var extension := suggestedExtensions[i];
        assert suggestedExtensions[..i + 1][..i] == suggestedExtensions[..i];
        AppendMissingTwice(old(suggestions), Missing(suggestedExtensions[..i], loadedExtensions),
          if extension in loadedExtensions then [] else [extension]);
        if extension in loadedExtensions {
          continue;
        }
        suggestions := AppendMissing(suggestions, [extension]);
      }
      assert suggestedExtensions[..|suggestedExtensions|] == suggestedExtensions;

      preflight := Preflight(suggestions, criticals);
    }
  }

  /** With every required and suggested extension loaded, a first check reports nothing. */
  lemma {:induction false} NothingMissingWhenAllLoaded(wanted: seq<string>, loaded: seq<string>)
    requires forall x :: x in wanted ==> x in loaded
    ensures Missing(wanted, loaded) == []
  {
    if wanted != [] {
      var init := wanted[..|wanted| - 1];
      assert forall x :: x in init ==> x in wanted;
      NothingMissingWhenAllLoaded(init, loaded);
    }
  }
}
