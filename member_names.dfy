/** Member names carried by validation failures. */
module MemberNames {
  import opened ObjectHelper
  import opened ErrorTable

  /** A null member name reads as the empty (object-level) name. */
  function NameOrEmpty(name: Nullable<string>): string
  {
    if name.Null? then "" else name.value
  }

  /** string.IsNullOrEmpty */
  predicate Blank(name: Nullable<string>)
  {
    name.Null? || name.value == ""
  }

  ghost predicate NoDuplicates<T>(s: seq<T>)
  {
    forall i, j :: 0 <= i < j < |s| ==> s[i] != s[j]
  }

  /** The member names of one failure, null names read as "". */
  function NamesOf(r: ValidationResult): seq<string>
  {
    seq(|r.memberNames|, i requires 0 <= i < |r.memberNames| => NameOrEmpty(r.memberNames[i]))
  }

  /** The names of a result that may be ValidationResult.Success (null): none for Success. */
  function NamesOfNullable(r: Nullable<ValidationResult>): seq<string>
  {
    if r.Null? then [] else NamesOf(r.value)
  }

  /** Every name of every non-success result, in order, duplicates kept. */
  function AllNames(rs: seq<Nullable<ValidationResult>>): seq<string>
  {
    if rs == [] then [] else AllNames(rs[..|rs| - 1]) + NamesOfNullable(rs[|rs| - 1])
  }

  /** Some non-success result among rs names x (a null name counting as ""). */
  ghost predicate Mentions(rs: seq<Nullable<ValidationResult>>, x: string)
  {
    exists i :: 0 <= i < |rs| && rs[i].NotNull? && x in NamesOf(rs[i].value)
  }

  lemma {:induction false} AllNamesMentions(rs: seq<Nullable<ValidationResult>>, x: string)
    ensures x in AllNames(rs) <==> Mentions(rs, x)
  {
    if rs != [] {
      var init := rs[..|rs| - 1];
      AllNamesMentions(init, x);
      if Mentions(init, x) {
        var i :| 0 <= i < |init| && init[i].NotNull? && x in NamesOf(init[i].value);
        assert rs[i] == init[i];
      }
      if Mentions(rs, x) {
        var i :| 0 <= i < |rs| && rs[i].NotNull? && x in NamesOf(rs[i].value);
        if i < |rs| - 1 {
          assert init[i] == rs[i];
        }
      }
    }
  }

  lemma AllNamesMentionsEvery(rs: seq<Nullable<ValidationResult>>)
    ensures forall x :: x in AllNames(rs) <==> Mentions(rs, x)
  {
  }

  /** Enumerable.Distinct: the first occurrence of every element, in order of first occurrence. */
  function Distinct(s: seq<string>): (d: seq<string>)
    ensures NoDuplicates(d)
    ensures forall x :: x in d <==> x in s
  {
    if s == [] then []
    else
      var init := Distinct(s[..|s| - 1]);
      assert s == s[..|s| - 1] + [s[|s| - 1]];
      if s[|s| - 1] in init then init else init + [s[|s| - 1]]
  }

  /** Distinct leaves a sequence that has no duplicates unchanged. */
  lemma {:induction false} DistinctOfDistinct(s: seq<string>)
    requires NoDuplicates(s)
    ensures Distinct(s) == s
  {
    if s != [] {
      var init := s[..|s| - 1];
      DistinctOfDistinct(init);
      assert s[|s| - 1] !in init by {
        forall i | 0 <= i < |init| ensures init[i] != s[|s| - 1] {
          assert init[i] == s[i];
        }
      }
    }
  }

  /**
   * GetMemberNamesFromValidationResults: nothing for a null or empty input;
   * otherwise every name of every non-success result, null names read as "",
   * each once.
   */
  function GetMemberNamesFromValidationResults(results: Nullable<seq<Nullable<ValidationResult>>>): (names: seq<string>)
    ensures !AnyEx(results) ==> names == []
    ensures NoDuplicates(names)
    ensures forall x :: x in names <==> results.NotNull? && Mentions(results.value, x)
  {
    if !AnyEx(results) then []
    else
      AllNamesMentionsEvery(results.value);
      Distinct(AllNames(results.value))
  }

  /** A null member name of a non-success result shows up as "" among the extracted names. */
  lemma NullNameReadsAsEmpty(rs: seq<Nullable<ValidationResult>>, i: nat, j: nat)
    requires i < |rs| && rs[i].NotNull? && j < |rs[i].value.memberNames|
    requires rs[i].value.memberNames[j].Null?
    ensures "" in GetMemberNamesFromValidationResults(NotNull(rs))
  {
    assert NamesOf(rs[i].value)[j] == "";
    assert Mentions(rs, "");
  }

  /**
   * FirstOrDefault(m => !string.IsNullOrEmpty(m)): the first name that is
   * neither null nor empty, or null when there is none.
   */
  function FirstName(names: seq<Nullable<string>>): (first: Nullable<string>)
    ensures first.NotNull? ==> !Blank(first) && first in names
    ensures first.Null? <==> forall n :: n in names ==> Blank(n)
  {
    if names == [] then Null
    else if !Blank(names[0]) then names[0]
    else
      assert names == [names[0]] + names[1..];
      FirstName(names[1..])
  }

  /** What FirstName returns comes before every other usable name. */
  lemma {:induction false} FirstNameIsFirst(names: seq<Nullable<string>>)
    requires FirstName(names).NotNull?
    ensures exists i :: 0 <= i < |names| && names[i] == FirstName(names) &&
              forall j :: 0 <= j < i ==> Blank(names[j])
  {
    if !Blank(names[0]) {
      assert names[0] == FirstName(names);
    } else {
      FirstNameIsFirst(names[1..]);
      var i :| 0 <= i < |names[1..]| && names[1..][i] == FirstName(names[1..]) &&
                forall j :: 0 <= j < i ==> Blank(names[1..][j]);
      assert names[i + 1] == FirstName(names);
      forall j | 0 <= j < i + 1 ensures Blank(names[j]) {
        if j > 0 { assert names[j] == names[1..][j - 1]; }
      }
    }
  }
}
