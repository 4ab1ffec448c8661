/** The "{}" placeholder templates of the schedule builder, filled with
    String.replace: every occurrence of the two characters "{}" in the
    template, scanned left to right, is replaced by the value. The value
    itself is never scanned. */
module Template {

  const Placeholder: string := "{}"

  predicate StartsWithPlaceholder(s: string) {
    |s| >= 2 && s[0] == '{' && s[1] == '}'
  }

  /** "{}" occurs somewhere in s. */
  predicate HasPlaceholder(s: string) {
    StartsWithPlaceholder(s) || (|s| > 0 && HasPlaceholder(s[1..]))
  }

  /** String.replace("{}", value) applied to template; a template without
      a placeholder is left as it is. */
  function Substitute(template: string, value: string): (r: string)
    ensures !HasPlaceholder(template) ==> r == template
  {
    if |template| < 2 then template
    else if StartsWithPlaceholder(template) then value + Substitute(template[2..], value)
    else [template[0]] + Substitute(template[1..], value)
  }

  /** Text before the first placeholder is copied unchanged, and the text
      after it is substituted on its own. */
  lemma {:induction false} SubstituteAfterPrefix(prefix: string, rest: string, value: string)
    requires !HasPlaceholder(prefix)
    ensures Substitute(prefix + Placeholder + rest, value) == prefix + value + Substitute(rest, value)
    decreases |prefix|
  {
    var t := prefix + Placeholder + rest;
    if |prefix| == 0 {
      assert t == "{}" + rest;
      assert t[2..] == rest;
    } else {
      assert !StartsWithPlaceholder(t) by {
        if |prefix| == 1 {
          assert t[1] == '{';
        } else {
          assert t[..2] == prefix[..2];
        }
      }
      assert t[1..] == prefix[1..] + Placeholder + rest;
      SubstituteAfterPrefix(prefix[1..], rest, value);
      assert Substitute(t, value) == [t[0]] + Substitute(t[1..], value);
      assert [t[0]] + (prefix[1..] + value + Substitute(rest, value)) == prefix + value + Substitute(rest, value) by {
        assert [t[0]] + prefix[1..] == prefix;
      }
    }
  }

  /** A template with exactly one placeholder: the value lands where the
      placeholder was, verbatim, whatever the value contains. */
  lemma SubstituteSingle(prefix: string, suffix: string, value: string)
    requires !HasPlaceholder(prefix)
    requires !HasPlaceholder(suffix)
    ensures Substitute(prefix + Placeholder + suffix, value) == prefix + value + suffix
  {
    SubstituteAfterPrefix(prefix, suffix, value);
  }

  /** A template that starts with its only placeholder: the value, then the rest. */
  lemma SubstituteLeading(suffix: string, value: string)
    requires !HasPlaceholder(suffix)
    ensures Substitute(Placeholder + suffix, value) == value + suffix
  {
    assert Placeholder + suffix == "" + Placeholder + suffix;
    assert !HasPlaceholder("");
    SubstituteSingle("", suffix, value);
  }

  /** Text without an opening brace holds no placeholder. */
  lemma {:induction false} NoBraceNoPlaceholder(s: string)
    requires forall i :: 0 <= i < |s| ==> s[i] != '{'
    ensures !HasPlaceholder(s)
    decreases |s|
  {
    if |s| > 0 {
      NoBraceNoPlaceholder(s[1..]);
    }
  }
}
