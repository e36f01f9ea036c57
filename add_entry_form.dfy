/** The entry form (src/components/AddEntryForm.tsx): a name field, a protein
    field whose every change is filtered down to digits and points, and a
    submit handler that hands both strings on when both are non-empty and
    then clears the form.

    The conversion of the protein text by `parseFloat` is not modelled: a
    submission carries the text, and the app's add operation takes a number. */
module AddEntryForm {
  import opened Collections

  predicate IsProteinChar(c: char)
  {
    '0' <= c <= '9' || c == '.'
  }

  /** `handleProteinInput`: every character outside `[0-9.]` is deleted. */
  function FilterProtein(raw: string): (r: string)
    ensures |r| <= |raw|
    ensures forall i :: 0 <= i < |r| ==> IsProteinChar(r[i])
  {
    Filter(raw, IsProteinChar)
  }

  /** The filter deletes exactly the other characters: every digit and point
      of the input survives, as often as it occurred and in the same order. */
  lemma FilterProteinDeletesOnlyOthers(raw: string, c: char)
    ensures IsSubsequence(FilterProtein(raw), raw)
    ensures IsProteinChar(c) ==> multiset(FilterProtein(raw))[c] == multiset(raw)[c]
    ensures c in FilterProtein(raw) <==> c in raw && IsProteinChar(c)
  {
    FilterIsSubsequence(raw, IsProteinChar);
    FilterCounts(raw, IsProteinChar, c);
    FilterMembers(raw, IsProteinChar, c);
  }

  /** Filtering the filtered text again changes nothing. */
  lemma FilterProteinIdempotent(raw: string)
    ensures FilterProtein(FilterProtein(raw)) == FilterProtein(raw)
  {
    FilterIdempotent(raw, IsProteinChar);
  }

  /** Text made only of digits and points passes unchanged, and no other text does. */
  lemma FilterProteinFixedPoints(raw: string)
    ensures FilterProtein(raw) == raw <==> forall i :: 0 <= i < |raw| ==> IsProteinChar(raw[i])
  {
    FilterIdentity(raw, IsProteinChar);
  }

  /** The filter does not enforce a single decimal point. */
  lemma FilterKeepsSeveralPoints()
    ensures FilterProtein("12a.3.4") == "12.3.4"
  {
  }

  /** The protein input's `pattern="[0-9]*\.?[0-9]*"`, matched against the
      whole value: digits with at most one point among them. */
  predicate MatchesPattern(s: string)
    ensures MatchesPattern(s) ==> FilterProtein(s) == s
    ensures (forall i :: 0 <= i < |s| ==> '0' <= s[i] <= '9') ==> MatchesPattern(s)
  {
    FilterIdentity(s, IsProteinChar);
    (forall i :: 0 <= i < |s| ==> IsProteinChar(s[i])) && Points(s) <= 1
  }

  /** The number of decimal points in `s`. */
  function Points(s: string): (r: nat)
    ensures r <= |s|
    ensures r == 0 <==> forall i :: 0 <= i < |s| ==> s[i] != '.'
  {
    if s == [] then 0
    else
      assert forall i :: 1 <= i < |s| ==> s[1..][i - 1] == s[i];
      (if s[0] == '.' then 1 else 0) + Points(s[1..])
  }

  /** Points add up over a concatenation. */
  lemma {:induction false} PointsAppend(a: string, b: string)
    ensures Points(a + b) == Points(a) + Points(b)
  {
    if a != [] {
      assert (a + b)[1..] == a[1..] + b;
      PointsAppend(a[1..], b);
    } else {
      assert a + b == b;
    }
  }

  /** Every text of the regular expression's shape matches: digits, then
      optionally one point followed by more digits. */
  lemma PatternAcceptsDecimal(whole: string, fraction: string)
    requires forall i :: 0 <= i < |whole| ==> '0' <= whole[i] <= '9'
    requires forall i :: 0 <= i < |fraction| ==> '0' <= fraction[i] <= '9'
    ensures MatchesPattern(whole)
    ensures MatchesPattern(whole + "." + fraction)
  {
    PointsAppend(whole, ".");
    PointsAppend(whole + ".", fraction);
    assert Points(".") == 1 by { assert "."[1..] == []; }
    var s := whole + "." + fraction;
    forall i | 0 <= i < |s|
      ensures IsProteinChar(s[i])
    {
      if i < |whole| {
        assert s[i] == whole[i];
      } else if i > |whole| {
        assert s[i] == fraction[i - |whole| - 1];
      }
    }
  }

  /** Nothing with two points matches, whatever surrounds them. */
  lemma PatternRejectsTwoPoints(s: string, i: nat, j: nat)
    requires i < j < |s| && s[i] == '.' && s[j] == '.'
    ensures !MatchesPattern(s)
  {
    assert s == s[..j] + s[j..];
    PointsAppend(s[..j], s[j..]);
    assert s[..j][i] == '.';
    assert s[j..][0] == '.';
  }

  /** The browser's constraint validation on submission: both inputs are
      `required`, and a non-empty protein value must match the pattern. An
      invalid form never reaches the submit handler. */
  predicate NativelyValid(name: string, protein: string)
    ensures NativelyValid(name, protein) ==> HandlerAccepts(name, protein)
    ensures NativelyValid(name, protein) ==> FilterProtein(protein) == protein
  {
    FilterIdentity(protein, IsProteinChar);
    name != "" && protein != "" && MatchesPattern(protein)
  }

  /** `handleSubmit`'s own guard: both strings truthy, i.e. non-empty. */
  predicate HandlerAccepts(name: string, protein: string)
  {
    name != "" && protein != ""
  }

  /** Whether a submission reaches `onAdd`. */
  predicate Submits(name: string, protein: string)
    ensures Submits(name, protein) <==> NativelyValid(name, protein)
  {
    NativelyValid(name, protein) && HandlerAccepts(name, protein)
  }

  /** "0" is a non-empty string and passes both checks; so does a lone
      point, which `parseFloat` then turns into NaN. Several points are
      stopped by the pattern even though the filter lets them through. */
  lemma SubmitEdgeCases(name: string)
    requires name != ""
    ensures Submits(name, "0")
    ensures Submits(name, ".")
    ensures !Submits(name, FilterProtein("12a.3.4"))
  {
    FilterKeepsSeveralPoints();
    assert Points("12.3.4") == 2;
  }

  /** What `onAdd` receives before the protein text goes through `parseFloat`. */
  datatype Submission = Submission(name: string, proteinText: string)

  /** The form's two controlled fields. */
  class EntryForm {
    var name: string
    var protein: string

    constructor ()
      ensures name == "" && protein == ""
    {
      name := "";
      protein := "";
    }

    /** The name input's change handler. */
    method ChangeName(value: string)
      modifies this
      ensures name == value && protein == old(protein)
    {
      name := value;
    }

    /** `handleProteinInput`. */
    method ChangeProtein(value: string)
      modifies this
      ensures protein == FilterProtein(value) && name == old(name)
    {
      protein := FilterProtein(value);
    }

    /** Submitting the form: an accepted submission is handed on and both
        fields are cleared; a rejected one changes nothing. */
    method Submit() returns (added: Option<Submission>)
      modifies this
      ensures added.Some? <==> Submits(old(name), old(protein))
      ensures added.Some? ==> added.value == Submission(old(name), old(protein)) && name == "" && protein == ""
      ensures added.None? ==> name == old(name) && protein == old(protein)
    {
      if !NativelyValid(name, protein) {
        return None;
      }
      if HandlerAccepts(name, protein) {
        added := Some(Submission(name, protein));
        name := "";
        protein := "";
      } else {
        added := None;
      }
    }
  }
}
