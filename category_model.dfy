/** The `Category` entity: its key and the three attributes on `Title`. */
module CategoryModel {
  import opened Wrappers
  import opened DataAnnotations

  /** A category; `id` is the table key, `title` may be null in a request body. */
  datatype Category = Category(id: int, title: Option<string>)

  /** `[Required]`, `[MaxLength(60)]` and `[MinLength(3)]` on `Title`, in declaration order. */
  function TitleChecks(title: Option<string>): (checks: seq<Check>)
    ensures AllApply(checks)
    ensures forall i :: 0 <= i < |checks| ==> checks[i].field == Title
  {
    [ Check(Title, Required, Text(title)),
      Check(Title, MaxLength(60), Text(title)),
      Check(Title, MinLength(3), Text(title)) ]
  }

  /** The title rule stated directly: present, not blank, and 3 to 60 UTF-16 code units long. */
  predicate ValidTitle(title: Option<string>)
  {
    title.Some? && !IsBlank(title.value) && 3 <= Utf16Length(title.value) <= 60
  }

  /** Running the three title attributes reports `Title` exactly when the direct rule fails. */
  lemma TitleChecksMeanValidTitle(title: Option<string>)
    ensures Violations(TitleChecks(title)) == if ValidTitle(title) then {} else {Title}
  {
    var checks := TitleChecks(title);
    if !ValidTitle(title) {
      if title.None? || IsBlank(title.value) {
        assert !IsValid(checks[0].rule, checks[0].value);
      } else if Utf16Length(title.value) > 60 {
        assert !IsValid(checks[1].rule, checks[1].value);
      } else {
        assert !IsValid(checks[2].rule, checks[2].value);
      }
    }
  }

  /** The result of running the title attributes: `Title` when the direct rule fails, nothing otherwise. */
  function TitleViolations(title: Option<string>): (fields: set<Field>)
    ensures fields == if ValidTitle(title) then {} else {Title}
  {
    TitleChecksMeanValidTitle(title);
    Violations(TitleChecks(title))
  }

  /** The fields of a category that fail validation (`ModelState.IsValid` is that this set is empty). */
  function CategoryViolations(c: Category): (fields: set<Field>)
    ensures fields <= {Title}
    ensures Title in fields <==> !ValidTitle(c.title)
  {
    TitleViolations(c.title)
  }

  predicate IsValidCategory(c: Category)
  {
    CategoryViolations(c) == {}
  }

  /**
   * For a title written without supplementary characters, the length bounds are
   * bounds on the number of characters: a non-blank title is valid exactly when
   * it has 3 to 60 characters.
   */
  lemma {:induction false} TitleOfBasicText(c: Category)
    requires c.title.Some? && !IsBlank(c.title.value)
    requires forall i :: 0 <= i < |c.title.value| ==> !IsSupplementary(c.title.value[i])
    ensures IsValidCategory(c) <==> 3 <= |c.title.value| <= 60
  {
    Utf16LengthOfBasicText(c.title.value);
  }

  /** The failing cases of the title rule, each reported as `Title`. */
  lemma InvalidTitles(c: Category)
    ensures c.title.None? ==> CategoryViolations(c) == {Title}
    ensures c.title.Some? && IsBlank(c.title.value) ==> CategoryViolations(c) == {Title}
    ensures c.title.Some? && Utf16Length(c.title.value) > 60 ==> CategoryViolations(c) == {Title}
    ensures c.title.Some? && Utf16Length(c.title.value) < 3 ==> CategoryViolations(c) == {Title}
  {
  }
}
