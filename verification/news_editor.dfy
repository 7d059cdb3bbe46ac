/**
 * The news editor dialog: its own slug rule (runs of anything but `[a-z0-9]`
 * become one hyphen, then a leading and a trailing hyphen are cut), the
 * record it writes, and the form reset after a successful save.
 */
module NewsEditor {
  import opened Base
  import opened Lists
  import opened SlugText

  // ---------------------------------------------------------------- slug

  /** `.replace(/(^-|-$)/g, '')`: a hyphen at the very start and one at the
      very end are removed (for the one-character string `-`, once). */
  function TrimHyphens(s: string): string
  {
    var a := if |s| > 0 && s[0] == '-' then s[1..] else s;
    if |a| > 0 && a[|a| - 1] == '-' then a[..|a| - 1] else a
  }

  /** `title.toLowerCase().replace(/[^a-z0-9]+/g, '-').replace(/(^-|-$)/g, '')` */
  function Slug(title: string): string
  {
    TrimHyphens(ReplaceRuns(Lower(title), NotSlugAlnum))
  }

  /** Neither starting nor ending with a hyphen. */
  predicate Trimmed(s: string)
  {
    s == [] || (s[0] != '-' && s[|s| - 1] != '-')
  }

  /** The trimmed string is the slice `s[i..j]`, and what lies outside it
      is at most one hyphen at each end. */
  lemma TrimHyphensSlice(s: string) returns (i: nat, j: nat)
    ensures i <= j <= |s| && TrimHyphens(s) == s[i..j]
    ensures i <= 1 && (i == 1 ==> s[0] == '-')
    ensures |s| - j <= 1 && (j < |s| ==> s[j] == '-')
  {
    var a := if |s| > 0 && s[0] == '-' then s[1..] else s;
    i := if |s| > 0 && s[0] == '-' then 1 else 0;
    assert a == s[i..];
    j := if |a| > 0 && a[|a| - 1] == '-' then |s| - 1 else |s|;
  }

  /** Cutting at most one hyphen from each end loses no letter or digit. */
  lemma TrimHyphensAlnums(s: string)
    ensures Alnums(TrimHyphens(s)) == Alnums(s)
  {
    var i, j := TrimHyphensSlice(s);
    assert s == s[..i] + s[i..j] + s[j..];
    FilterAppend(s[..i] + s[i..j], s[j..], IsSlugAlnum);
    FilterAppend(s[..i], s[i..j], IsSlugAlnum);
    FilterLength(s[..i], IsSlugAlnum);
    FilterLength(s[j..], IsSlugAlnum);
  }

  /** Trimming a string over `[a-z0-9-]` without double hyphens leaves one
      that is also trimmed; only hyphens are removed. */
  lemma TrimHyphensSpec(s: string)
    requires SlugChars(s) && NoDoubleHyphen(s)
    ensures SlugChars(TrimHyphens(s)) && NoDoubleHyphen(TrimHyphens(s))
    ensures Trimmed(TrimHyphens(s))
    ensures Alnums(TrimHyphens(s)) == Alnums(s)
  {
    var i, j := TrimHyphensSlice(s);
    var b := s[i..j];
    SliceKeepsShape(s, i, j);
    if b != [] {
      assert b[0] == s[i];
      assert i == 1 ==> s[1] != '-';
      assert b[|b| - 1] == s[j - 1];
      assert j < |s| ==> s[j - 1] != '-';
    }
    TrimHyphensAlnums(s);
  }

  /** The slug uses only `a-z`, `0-9` and `-`, never two hyphens in a row,
      and neither starts nor ends with a hyphen. */
  lemma SlugShape(title: string)
    ensures SlugChars(Slug(title)) && NoDoubleHyphen(Slug(title)) && Trimmed(Slug(title))
  {
    var r := ReplaceRuns(Lower(title), NotSlugAlnum);
    ReplaceRunsChars(Lower(title), NotSlugAlnum);
    ReplaceRunsNoDoubleHyphen(Lower(title), NotSlugAlnum);
    TrimHyphensSpec(r);
  }

  /** Deleting the hyphens of the slug leaves exactly the ASCII letters and
      digits of the lower-cased title, in order. */
  lemma SlugAlnums(title: string)
    ensures DropHyphens(Slug(title)) == Alnums(Lower(title))
  {
    var r := ReplaceRuns(Lower(title), NotSlugAlnum);
    ReplaceRunsChars(Lower(title), NotSlugAlnum);
    ReplaceRunsNoDoubleHyphen(Lower(title), NotSlugAlnum);
    TrimHyphensSpec(r);
    ReplaceRunsAlnums(Lower(title), NotSlugAlnum);
    DropHyphensOfSlugChars(Slug(title));
  }

  /** Generating a slug from a slug gives it back. */
  lemma SlugIdempotent(title: string)
    ensures Slug(Slug(title)) == Slug(title)
  {
    var s := Slug(title);
    SlugShape(title);
    LowerIdentity(s);
    ReplaceRunsFixpoint(s, NotSlugAlnum);
  }

  /** A title with no ASCII letter or digit, and no character that
      lower-cases into one (a Cyrillic title, say), yields the empty slug. */
  lemma SlugOfNoAlnum(title: string)
    requires forall i :: 0 <= i < |title| ==> !IsSlugAlnum(title[i]) && LowerFixed(title[i])
    ensures Slug(title) == ""
  {
    SlugShape(title);
    SlugAlnums(title);
    LowerIdentity(title);
    FilterLength(title, IsSlugAlnum);
    DropHyphensOfSlugChars(Slug(title));
    AllHyphensWithoutAlnums(Slug(title));
  }

  /** The Kelvin sign gives the slug `k`, and the dotted capital I gives `i`:
      its combining dot becomes a hyphen, which the trim removes. */
  lemma NonAsciiCapitalSlugs()
    ensures Slug([KelvinSign]) == "k"
    ensures Slug([DottedCapitalI]) == "i"
  {
    assert Lower([KelvinSign]) == "k";
    assert ReplaceRuns("k", NotSlugAlnum) == "k";
    assert TrimHyphens("k") == "k";
    assert Lower([DottedCapitalI]) == "i\U{0307}";
    assert SkipRun("", NotSlugAlnum) == "";
    assert ReplaceRuns("\U{0307}", NotSlugAlnum) == "-";
    assert ReplaceRuns("i\U{0307}", NotSlugAlnum) == "i-";
    assert TrimHyphens("i-") == "i";
  }

  // ---------------------------------------------------------------- form

  datatype NewsForm = NewsForm(title: string, excerpt: string, content: string,
                               featuredImage: string, categoryId: string, isFeatured: bool)

  /** `INITIAL_FORM_DATA` */
  const InitialForm := NewsForm("", "", "", "", "", false)

  /** The `newsData` record written to the `news` table. */
  datatype NewsData = NewsData(title: string, slug: string, excerpt: string, content: string,
                               featuredImage: string, categoryId: string, isFeatured: bool,
                               publishedAt: string)

  /** The write a save issues: an update of the edited row, or an insert. */
  datatype Save = UpdateNews(id: string, data: NewsData) | InsertNews(data: NewsData)

  /** `newsData`: the form fields copied unchanged, the slug of the title, the clock's time. */
  function MakeNewsData(form: NewsForm, now: string): (d: NewsData)
    ensures d.title == form.title && d.excerpt == form.excerpt && d.content == form.content
    ensures d.featuredImage == form.featuredImage && d.categoryId == form.categoryId
    ensures d.isFeatured == form.isFeatured && d.publishedAt == now
    ensures d.slug == Slug(form.title)
  {
    NewsData(form.title, Slug(form.title), form.excerpt, form.content,
             form.featuredImage, form.categoryId, form.isFeatured, now)
  }

  class Editor {
    var formData: NewsForm
    var editingId: Option<string>
    var isLoading: bool
    var closes: nat

    constructor ()
      ensures formData == InitialForm && editingId.None? && !isLoading && closes == 0
    {
      formData := InitialForm;
      editingId := None;
      isLoading := false;
      closes := 0;
    }

    /** `handleSubmit`: the write goes to the edited row when `editingId` is a
        non-empty id and is an insert otherwise; after a successful write the
        form is reset and the dialog closed, after a failed one both stay. */
    method HandleSubmit(now: string, written: Outcome) returns (save: Save)
      modifies this
      ensures save == if old(editingId).Some? && old(editingId).value != ""
                      then UpdateNews(old(editingId).value, MakeNewsData(old(formData), now))
                      else InsertNews(MakeNewsData(old(formData), now))
      ensures written.Pass? ==> formData == InitialForm && editingId.None? && closes == old(closes) + 1
      ensures written.Fail? ==> formData == old(formData) && editingId == old(editingId) && closes == old(closes)
      ensures !isLoading
    {
      isLoading := true;
      var data := MakeNewsData(formData, now);
      if editingId.Some? && editingId.value != "" {
        save := UpdateNews(editingId.value, data);
      } else {
        save := InsertNews(data);
      }
      if written.Pass? {
        formData := InitialForm;
        editingId := None;
        closes := closes + 1;
      }
      isLoading := false;
    }
  }
}
