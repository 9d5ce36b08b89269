/**
  The boolean-string parser of mkvtag (mkvtag/utils.py): a value is
  "maybe true" or "maybe false" when its lower-cased text is one of four
  words, and `coerce_to_bool` turns text into a bool, raising a ValueError
  in strict mode for text that is neither.

  Python's `str(v)` is modelled by taking the text itself; `lower()` is
  ASCII lower-casing, which gives the same verdict as Unicode lower-casing
  on these eight words (no non-ASCII character lower-cases into one of
  their letters).
 */
module Utils {

  import opened Wrappers

  /** The ValueError raised by `coerce_to_bool` in strict mode. */
  datatype ValueError = CannotParseBool(text: string)

  function LowerChar(c: char): char
  {
    if 'A' <= c <= 'Z' then (c as int + 32) as char else c
  }

  function Lower(s: string): (r: string)
    ensures |r| == |s|
    ensures forall i :: 0 <= i < |s| ==> r[i] == LowerChar(s[i])
  {
    if s == [] then [] else [LowerChar(s[0])] + Lower(s[1..])
  }

  const TrueWords: seq<string> := ["true", "t", "yes", "y"]
  const FalseWords: seq<string> := ["false", "f", "no", "n"]

  /** `is_maybe_true`: only a one-, three- or four-letter text starting with `t` or `y` in either case can be. */
  predicate IsMaybeTrue(v: string)
    ensures IsMaybeTrue(v) ==> (|v| == 1 || |v| == 3 || |v| == 4) && v[0] in "tTyY"
  {
    Lower(v) in TrueWords
  }

  /** `is_maybe_false`: only a one-, two- or five-letter text starting with `f` or `n` in either case can be. */
  predicate IsMaybeFalse(v: string)
    ensures IsMaybeFalse(v) ==> (|v| == 1 || |v| == 2 || |v| == 5) && v[0] in "fFnN"
  {
    Lower(v) in FalseWords
  }

  /** Two texts that differ only in the case of ASCII letters. */
  predicate EqualIgnoringCase(v: string, w: string)
  {
    |v| == |w| && forall i :: 0 <= i < |v| ==> LowerChar(v[i]) == LowerChar(w[i])
  }

  function CoerceToBool(v: string, strict: bool): (r: Result<bool, ValueError>)
    ensures r.Ok? <==> !strict || IsMaybeTrue(v) || IsMaybeFalse(v)
    ensures r.Ok? ==> (r.value <==> IsMaybeTrue(v))
    ensures r.Err? ==> r.error == CannotParseBool(v)
  {
    if IsMaybeTrue(v) then Ok(true)
    else if IsMaybeFalse(v) || !strict then Ok(false)
    else Err(CannotParseBool(v))
  }

  /** No text is both maybe-true and maybe-false. */
  lemma WordSetsDisjoint(v: string)
    ensures !(IsMaybeTrue(v) && IsMaybeFalse(v))
  {
  }

  /** Where strict mode does not raise, it agrees with lenient mode. */
  lemma StrictAgreesWithLenient(v: string)
    ensures CoerceToBool(v, true).Ok? ==> CoerceToBool(v, true) == CoerceToBool(v, false)
  {
  }

  /** The verdict depends only on the lower-cased text. */
  lemma CoerceIgnoresCase(v: string, w: string, strict: bool)
    requires EqualIgnoringCase(v, w)
    ensures IsMaybeTrue(v) == IsMaybeTrue(w) && IsMaybeFalse(v) == IsMaybeFalse(w)
    ensures CoerceToBool(v, strict).Ok? == CoerceToBool(w, strict).Ok?
  {
    assert Lower(v) == Lower(w);
  }

  /** A text is maybe-true exactly when it spells one of the true words in any case. */
  lemma {:induction false} MaybeTrueIffSpellsTrueWord(v: string)
    ensures IsMaybeTrue(v) <==> exists i :: 0 <= i < |TrueWords| && EqualIgnoringCase(v, TrueWords[i])
  {
    forall i | 0 <= i < |TrueWords|
      ensures EqualIgnoringCase(v, TrueWords[i]) <==> Lower(v) == TrueWords[i]
    {
      LowerOfLowercase(TrueWords[i]);
      if EqualIgnoringCase(v, TrueWords[i]) {
        assert Lower(v) == Lower(TrueWords[i]);
      }
    }
  }

  /** A text is maybe-false exactly when it spells one of the false words in any case. */
  lemma {:induction false} MaybeFalseIffSpellsFalseWord(v: string)
    ensures IsMaybeFalse(v) <==> exists i :: 0 <= i < |FalseWords| && EqualIgnoringCase(v, FalseWords[i])
  {
    forall i | 0 <= i < |FalseWords|
      ensures EqualIgnoringCase(v, FalseWords[i]) <==> Lower(v) == FalseWords[i]
    {
      LowerOfLowercase(FalseWords[i]);
      if EqualIgnoringCase(v, FalseWords[i]) {
        assert Lower(v) == Lower(FalseWords[i]);
      }
    }
  }

  lemma LowerOfLowercase(w: string)
    requires forall i :: 0 <= i < |w| ==> 'a' <= w[i] <= 'z'
    ensures Lower(w) == w
  {
  }

  /** The behaviour the command-line flags rely on, on sample inputs. */
  lemma CoerceExamples()
    ensures CoerceToBool("YES", true) == Ok(true)
    ensures CoerceToBool("True", false) == Ok(true)
    ensures CoerceToBool("No", true) == Ok(false)
    ensures CoerceToBool("maybe", false) == Ok(false)
    ensures CoerceToBool("maybe", true) == Err(CannotParseBool("maybe"))
  {
    assert Lower("YES") == "yes";
    assert Lower("True") == "true";
    assert Lower("No") == "no";
    assert Lower("maybe") == "maybe";
  }
}
