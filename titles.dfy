/**
 * The two small title helpers: the file name a report is exported under, and
 * the title a saved report is stored under.
 */
module Titles {
  import opened Text

  /** The name used when a report has no title. */
  const DefaultTitle: string := "strategy_report"

  /** `toLowerCase` on the characters it can meet here (ASCII letters, digits and `_`). */
  function Lower(c: char): char {
    if 'A' <= c <= 'Z' then (c as int + 32) as char else c
  }

  /** A character of a safe name: `[a-z0-9_]`. */
  predicate SafeChar(c: char) {
    ('a' <= c <= 'z') || IsDigit(c) || c == '_'
  }

  /** `.replace(/[^a-z0-9]/gi, '_')`: every character outside `[A-Za-z0-9]` becomes `_`. */
  function Underscore(s: string): (r: string)
    ensures |r| == |s|
    ensures forall k :: 0 <= k < |s| ==> (r[k] == '_' <==> !IsAlnum(s[k]))
    ensures forall k :: 0 <= k < |s| && IsAlnum(s[k]) ==> r[k] == s[k]
  {
    seq(|s|, k requires 0 <= k < |s| => if IsAlnum(s[k]) then s[k] else '_')
  }

  /** `.toLowerCase()` on a string of ASCII letters, digits and underscores. */
  function LowerAll(s: string): (r: string)
    ensures |r| == |s|
  {
    seq(|s|, k requires 0 <= k < |s| => Lower(s[k]))
  }

  /**
   * The export file name: the title, or the default when it is missing or
   * empty, with every character outside `[A-Za-z0-9]` replaced by `_`, then
   * lower-cased. It has as many characters as the title it came from and uses
   * only `[a-z0-9_]`.
   */
  function SafeTitle(title: Option<string>): (r: string)
    ensures |r| == |if title.None? || title.value == [] then DefaultTitle else title.value|
    ensures forall k :: 0 <= k < |r| ==> SafeChar(r[k])
  {
    var base := if title.None? || title.value == [] then DefaultTitle else title.value;
    var r := LowerAll(Underscore(base));
    assert forall k :: 0 <= k < |r| ==> SafeChar(r[k]) by {
      forall k | 0 <= k < |r| ensures SafeChar(r[k]) {
        assert r[k] == Lower(Underscore(base)[k]);
      }
    }
    r
  }

  /** Where a title has a letter or a digit, the name has it lower-cased; everywhere else an underscore. */
  lemma SafeTitleChars(title: string)
    requires title != []
    ensures forall k :: 0 <= k < |title| ==>
      SafeTitle(Some(title))[k] == if IsAlnum(title[k]) then Lower(title[k]) else '_'
  {
  }

  /** A name that is already safe is its own safe name, so applying the rule twice changes nothing. */
  lemma SafeTitleIdempotent(title: Option<string>)
    ensures SafeTitle(Some(SafeTitle(title))) == SafeTitle(title)
  {
    var r := SafeTitle(title);
    assert r != [];
    var r2 := SafeTitle(Some(r));
    forall k | 0 <= k < |r| ensures r2[k] == r[k] {
      assert SafeChar(r[k]);
      if r[k] == '_' {
        assert !IsAlnum(r[k]);
      } else {
        assert IsAlnum(r[k]);
      }
    }
  }

  /** The default name is already safe. */
  lemma DefaultTitleSafe()
    ensures SafeTitle(None) == DefaultTitle && SafeTitle(Some([])) == DefaultTitle
  {
    var r := SafeTitle(None);
    forall k | 0 <= k < |r| ensures r[k] == DefaultTitle[k] {
      assert SafeChar(DefaultTitle[k]);
    }
  }

  /** The longest stored title before it is cut. */
  const TitleLimit: nat := 50

  /**
   * The stored title of a report: the problem description when it has at most
   * fifty characters, else its first fifty characters and an ellipsis.
   */
  function StoredTitle(description: string): (r: string)
    ensures |description| <= TitleLimit ==> r == description
    ensures |description| > TitleLimit ==> |r| == TitleLimit + 3 && r[..TitleLimit] == description[..TitleLimit] && r[TitleLimit..] == "..."
  {
    var head := if |description| <= TitleLimit then description else description[..TitleLimit];
    head + (if |description| > TitleLimit then "..." else "")
  }

  /** A stored title is never longer than 53 characters and always starts like the description. */
  lemma StoredTitleBounds(description: string)
    ensures |StoredTitle(description)| <= TitleLimit + 3
    ensures var n := if |description| <= TitleLimit then |description| else TitleLimit;
      StoredTitle(description)[..n] == description[..n]
  {
  }
}
