/**
 * The news management panel: its slug generator, the form rules a submit
 * must pass, and the optimistic edit, create and delete it applies to its
 * local news list before the backend answers (re-fetching the list when the
 * backend reports an error).
 */
module NewsPanel {
  import opened Base
  import opened Lists
  import opened SlugText

  // ---------------------------------------------------------------- slug

  /** The class kept by `.replace(/[^a-z0-9 -]/g, '')`. */
  predicate IsPanelSlugChar(c: char) { IsSlugAlnum(c) || c == ' ' || c == '-' }

  /** `title.toLowerCase().replace(/[^a-z0-9 -]/g, '').replace(/\s+/g, '-').replace(/-+/g, '-')` */
  function GenerateSlug(title: string): string
  {
    ReplaceRuns(ReplaceRuns(Filter(Lower(title), IsPanelSlugChar), IsSpace), IsHyphen)
  }

  /** After the first two steps only letters, digits and hyphens remain. */
  lemma {:induction false} SpacedSlugChars(title: string)
    ensures SlugChars(ReplaceRuns(Filter(Lower(title), IsPanelSlugChar), IsSpace))
  {
    var kept := Filter(Lower(title), IsPanelSlugChar);
    FilterMembers(Lower(title), IsPanelSlugChar);
    var spaced := ReplaceRuns(kept, IsSpace);
    ReplaceRunsChars(kept, IsSpace);
    forall i | 0 <= i < |spaced| ensures IsSlugAlnum(spaced[i]) || spaced[i] == '-' {
      if spaced[i] != '-' {
        assert spaced[i] in kept && IsPanelSlugChar(spaced[i]) && !IsSpace(spaced[i]);
      }
    }
  }

  /** The slug uses only `a-z`, `0-9` and `-`, and never two hyphens in a row. */
  lemma {:induction false} GenerateSlugShape(title: string)
    ensures SlugChars(GenerateSlug(title))
    ensures NoDoubleHyphen(GenerateSlug(title))
  {
    var spaced := ReplaceRuns(Filter(Lower(title), IsPanelSlugChar), IsSpace);
    SpacedSlugChars(title);
    ReplaceRunsChars(spaced, IsHyphen);
    ReplaceRunsNoDoubleHyphen(spaced, IsHyphen);
  }

  /** Deleting the hyphens of the slug leaves the ASCII letters and digits of
      the lower-cased title, in order: nothing else survives and none is lost. */
  lemma {:induction false} GenerateSlugAlnums(title: string)
    ensures DropHyphens(GenerateSlug(title)) == Alnums(Lower(title))
  {
    var low := Lower(title);
    var kept := Filter(low, IsPanelSlugChar);
    var spaced := ReplaceRuns(kept, IsSpace);
    GenerateSlugShape(title);
    DropHyphensOfSlugChars(GenerateSlug(title));
    ReplaceRunsAlnums(spaced, IsHyphen);
    ReplaceRunsAlnums(kept, IsSpace);
    KeptAlnums(low);
  }

  /** Dropping the characters outside `[a-z0-9 -]` loses no letter or digit. */
  lemma {:induction false} KeptAlnums(s: string)
    ensures Alnums(Filter(s, IsPanelSlugChar)) == Alnums(s)
  {
    if s != [] {
      KeptAlnums(s[1..]);
    }
  }

  /** Generating a slug from a slug gives it back. */
  lemma {:induction false} GenerateSlugIdempotent(title: string)
    ensures GenerateSlug(GenerateSlug(title)) == GenerateSlug(title)
  {
    var s := GenerateSlug(title);
    GenerateSlugShape(title);
    LowerIdentity(s);
    FilterLength(s, IsPanelSlugChar);
    ReplaceRunsFixpoint(s, IsSpace);
    ReplaceRunsFixpoint(s, IsHyphen);
  }

  /** Leading whitespace or a leading hyphen survives as a leading hyphen:
      the panel's slug is never trimmed. */
  lemma {:induction false} GenerateSlugKeepsLeadingHyphen(title: string)
    requires title != [] && (title[0] == ' ' || title[0] == '-')
    ensures GenerateSlug(title) != [] && GenerateSlug(title)[0] == '-'
  {
    var low := Lower(title);
    assert low[0] == title[0];
    assert low == [low[0]] + low[1..];
    FilterAppend([low[0]], low[1..], IsPanelSlugChar);
    var kept := Filter(low, IsPanelSlugChar);
    assert kept[0] == title[0];
    ReplaceRunsHead(kept, IsSpace);
    var spaced := ReplaceRuns(kept, IsSpace);
    ReplaceRunsHead(spaced, IsHyphen);
  }

  /** A title made only of spaces and non-ASCII letters that lower-case
      outside ASCII (a Cyrillic title, say) yields `-` when it has a space and
      the empty slug when it has none. */
  lemma {:induction false} GenerateSlugOfNonAscii(title: string)
    requires forall i :: 0 <= i < |title| ==> title[i] == ' ' || (title[i] as int >= 128 && LowerFixed(title[i]))
    ensures GenerateSlug(title) == if ' ' in title then "-" else ""
  {
    LowerIdentity(title);
    var low := Lower(title);
    var kept := Filter(low, IsPanelSlugChar);
    FilterMembers(low, IsPanelSlugChar);
    assert forall c :: c in kept ==> c == ' ';
    if ' ' in title {
      assert ' ' in kept;
      AllSpacesCollapse(kept);
      assert ReplaceRuns("-", IsHyphen) == "-" + ReplaceRuns(SkipRun("", IsHyphen), IsHyphen);
    } else {
      assert forall i :: 0 <= i < |low| ==> !IsPanelSlugChar(low[i]);
      FilterLength(low, IsPanelSlugChar);
    }
  }

  /** The two non-ASCII capitals whose lower-case forms hold an ASCII letter:
      the Kelvin sign gives the slug `k`, and the dotted capital I gives `i`
      (the combining dot that follows the `i` is dropped). */
  lemma NonAsciiCapitalSlugs()
    ensures GenerateSlug([KelvinSign]) == "k"
    ensures GenerateSlug([DottedCapitalI]) == "i"
  {
    assert Lower([KelvinSign]) == "k";
    assert Filter("k", IsPanelSlugChar) == "k";
    assert ReplaceRuns("k", IsSpace) == "k";
    assert ReplaceRuns("k", IsHyphen) == "k";
    assert Lower([DottedCapitalI]) == "i\U{0307}";
    assert Filter("i\U{0307}", IsPanelSlugChar) == "i";
    assert ReplaceRuns("i", IsSpace) == "i";
    assert ReplaceRuns("i", IsHyphen) == "i";
  }

  /** A non-empty run of blanks becomes one hyphen. */
  lemma {:induction false} AllSpacesCollapse(s: string)
    requires s != [] && forall c :: c in s ==> c == ' '
    ensures ReplaceRuns(s, IsSpace) == "-"
  {
    assert s[0] in s;
    assert forall i :: 0 <= i < |s[1..]| ==> s[1..][i] in s;
    SkipRunAll(s[1..], IsSpace);
  }

  // ---------------------------------------------------------------- form

  /** The three fields of the panel's form. */
  datatype NewsForm = NewsForm(title: string, content: string, featuredImage: string)

  /** A row of the `news` table as the panel lists it. */
  datatype NewsItem = NewsItem(id: string, title: string, content: string,
                               featuredImage: string, slug: string, publishedAt: string)

  /** `{ ...data, slug, published_at }` */
  datatype Payload = Payload(title: string, content: string, featuredImage: string,
                             slug: string, publishedAt: string)

  /** The backend write a submit issues. */
  datatype Save = UpdateNews(id: string, payload: Payload) | InsertNews(payload: Payload)

  const MinTitleLength := 5
  const MinContentLength := 10

  /** The length JavaScript reports for a string: its UTF-16 code units, one
      for a character of the Basic Multilingual Plane and two (a surrogate
      pair) for any other. */
  function Utf16Length(s: string): (n: nat)
    ensures |s| <= n <= 2 * |s|
    ensures (forall i :: 0 <= i < |s| ==> (s[i] as int) < 0x1_0000) ==> n == |s|
    decreases |s|
  {
    if s == [] then 0
    else (if s[0] as int >= 0x1_0000 then 2 else 1) + Utf16Length(s[1..])
  }

  /** The form schema: a title of at least 5 and content of at least 10
      UTF-16 code units (zod's `min` counts JavaScript string length), and an
      image URL that the URL validator accepts (`imageIsUrl`). */
  predicate FormAccepted(form: NewsForm, imageIsUrl: bool)
  {
    Utf16Length(form.title) >= MinTitleLength && Utf16Length(form.content) >= MinContentLength && imageIsUrl
  }

  /** Three characters outside the Basic Multilingual Plane (three emoji, say)
      make a title long enough, and four ordinary letters do not. */
  lemma TitleLengthInCodeUnits(c: char, content: string, url: bool)
    requires c as int >= 0x1_0000
    ensures Utf16Length([c, c, c]) == 6
    ensures Utf16Length("news") == 4
    ensures FormAccepted(NewsForm([c, c, c], content, "u"), url)
        <==> Utf16Length(content) >= MinContentLength && url
    ensures !FormAccepted(NewsForm("news", content, "u"), url)
  {
    assert [c, c, c][1..] == [c, c] && [c, c][1..] == [c] && [c][1..] == [];
    assert Utf16Length([c]) == 2;
    assert Utf16Length([c, c]) == 4;
    assert "news"[1..] == "ews";
  }

  function MakePayload(form: NewsForm, now: string): (p: Payload)
    ensures p.title == form.title && p.content == form.content && p.featuredImage == form.featuredImage
    ensures p.slug == GenerateSlug(form.title) && p.publishedAt == now
  {
    Payload(form.title, form.content, form.featuredImage, GenerateSlug(form.title), now)
  }

  /** `{ ...item, ...payload }`: the payload's fields over the item, id kept. */
  function Merge(item: NewsItem, p: Payload): NewsItem
  {
    item.(title := p.title, content := p.content, featuredImage := p.featuredImage,
          slug := p.slug, publishedAt := p.publishedAt)
  }

  /** `prev.map(item => item.id === id ? { ...item, ...payload } : item)` */
  function ApplyEdit(items: seq<NewsItem>, id: string, p: Payload): seq<NewsItem>
  {
    if items == [] then []
    else [if items[0].id == id then Merge(items[0], p) else items[0]] + ApplyEdit(items[1..], id, p)
  }

  /** `[{ ...payload, id: optimisticId }, ...prev]` */
  function ApplyCreate(items: seq<NewsItem>, p: Payload, freshId: string): seq<NewsItem>
  {
    [NewsItem(freshId, p.title, p.content, p.featuredImage, p.slug, p.publishedAt)] + items
  }

  predicate KeepsOther(id: string, item: NewsItem) { item.id != id }

  /** `prev.filter(item => item.id !== id)` */
  function ApplyDelete(items: seq<NewsItem>, id: string): seq<NewsItem>
  {
    Filter(items, item => KeepsOther(id, item))
  }

  /** The optimistic edit keeps the length and every id; the items with the
      edited id take the payload, every other item is untouched. */
  lemma {:induction false} ApplyEditSpec(items: seq<NewsItem>, id: string, p: Payload)
    ensures |ApplyEdit(items, id, p)| == |items|
    ensures forall i :: 0 <= i < |items| ==> ApplyEdit(items, id, p)[i].id == items[i].id
    ensures forall i :: 0 <= i < |items| && items[i].id != id ==> ApplyEdit(items, id, p)[i] == items[i]
    ensures forall i :: 0 <= i < |items| && items[i].id == id ==> ApplyEdit(items, id, p)[i] == Merge(items[i], p)
  {
    if items != [] {
      ApplyEditSpec(items[1..], id, p);
    }
  }

  /** Re-applying the same edit changes nothing more. */
  lemma {:induction false} ApplyEditIdempotent(items: seq<NewsItem>, id: string, p: Payload)
    ensures ApplyEdit(ApplyEdit(items, id, p), id, p) == ApplyEdit(items, id, p)
  {
    if items != [] {
      ApplyEditIdempotent(items[1..], id, p);
    }
  }

  /** The optimistic create adds exactly one item, first, with the fresh id,
      and the old items follow in their order. */
  lemma ApplyCreateSpec(items: seq<NewsItem>, p: Payload, freshId: string)
    ensures |ApplyCreate(items, p, freshId)| == |items| + 1
    ensures ApplyCreate(items, p, freshId)[0].id == freshId
    ensures ApplyCreate(items, p, freshId)[0].slug == p.slug
    ensures ApplyCreate(items, p, freshId)[1..] == items
  {
  }

  /** The optimistic delete removes every item with the id and only those,
      keeping the rest in order. */
  lemma ApplyDeleteSpec(items: seq<NewsItem>, id: string, more: seq<NewsItem>)
    ensures forall x :: x in ApplyDelete(items, id) <==> x in items && x.id != id
    ensures ApplyDelete(items + more, id) == ApplyDelete(items, id) + ApplyDelete(more, id)
    ensures (forall i :: 0 <= i < |items| ==> items[i].id != id) ==> ApplyDelete(items, id) == items
  {
    FilterMembers(items, item => KeepsOther(id, item));
    FilterAppend(items, more, item => KeepsOther(id, item));
    FilterLength(items, item => KeepsOther(id, item));
  }

  /** What the local list becomes after a write: the optimistic update. */
  function Optimistic(items: seq<NewsItem>, save: Save, freshId: string): seq<NewsItem>
  {
    match save
    case UpdateNews(id, p) => ApplyEdit(items, id, p)
    case InsertNews(p) => ApplyCreate(items, p, freshId)
  }

  /**
   * The panel's state. A submit and a delete are each split in two: the
   * first half runs up to the awaited backend call and shows the optimistic
   * list; the second half receives the backend's answer.
   */
  class Panel {
    var items: seq<NewsItem>
    var selected: Option<NewsItem>
    var dialogOpen: bool
    var loading: bool
    var submitting: bool

    constructor ()
      ensures items == [] && selected.None? && !dialogOpen && loading && !submitting
    {
      items := [];
      selected := None;
      dialogOpen := false;
      loading := true;
      submitting := false;
    }

    /** `fetchNews`: the list becomes the rows read, or stays as it was when the read fails. */
    method FetchNews(read: Result<seq<NewsItem>>)
      modifies this`items, this`loading
      ensures items == if read.Ok? then read.value else old(items)
      ensures !loading
    {
      loading := true;
      if read.Ok? {
        items := read.value;
      }
      loading := false;
    }

    /** The edit button, or the add button when `item` is None. */
    method OpenDialog(item: Option<NewsItem>)
      modifies this`selected, this`dialogOpen
      ensures selected == item && dialogOpen
    {
      selected := item;
      dialogOpen := true;
    }

    /** `handleSubmit(onSubmit)` up to the awaited write: a form the schema
        rejects changes nothing; otherwise the payload is built, the list is
        updated optimistically and the write to issue is returned. */
    method BeginSubmit(form: NewsForm, imageIsUrl: bool, now: string, freshId: string)
      returns (save: Option<Save>)
      modifies this`items, this`submitting
      ensures save.Some? <==> FormAccepted(form, imageIsUrl)
      ensures save.None? ==> items == old(items) && submitting == old(submitting)
      ensures save.Some? ==> submitting
      ensures save.Some? ==> (save.value ==
        if old(selected).Some? then UpdateNews(old(selected).value.id, MakePayload(form, now))
        else InsertNews(MakePayload(form, now)))
      ensures save.Some? ==> items == Optimistic(old(items), save.value, freshId)
    {
      if !FormAccepted(form, imageIsUrl) {
        return None;
      }
      submitting := true;
      var payload := MakePayload(form, now);
      var write: Save;
      if selected.Some? {
        write := UpdateNews(selected.value.id, payload);
        items := ApplyEdit(items, selected.value.id, payload);
      } else {
        write := InsertNews(payload);
        items := ApplyCreate(items, payload, freshId);
      }
      save := Some(write);
    }

    /** The rest of `onSubmit`: on success the dialog closes; on success and on
        failure alike the list is re-fetched, which replaces the optimistic
        list when the read succeeds and leaves it in place when it fails. */
    method FinishSubmit(written: Outcome, read: Result<seq<NewsItem>>)
      modifies this`items, this`loading, this`dialogOpen, this`submitting
      ensures items == if read.Ok? then read.value else old(items)
      ensures dialogOpen == if written.Pass? then false else old(dialogOpen)
      ensures !submitting && !loading
    {
      if written.Pass? {
        dialogOpen := false;
      }
      FetchNews(read);
      submitting := false;
    }

    /** `handleDelete` up to the awaited delete: the item leaves the list at once. */
    method BeginDelete(id: string)
      modifies this`items
      ensures items == ApplyDelete(old(items), id)
    {
      items := ApplyDelete(items, id);
    }

    /** The rest of `handleDelete`: only a failed delete re-fetches the list. */
    method FinishDelete(deleted: Outcome, read: Result<seq<NewsItem>>)
      modifies this`items, this`loading
      ensures deleted.Pass? ==> items == old(items) && loading == old(loading)
      ensures deleted.Fail? ==> items == (if read.Ok? then read.value else old(items)) && !loading
    {
      if deleted.Fail? {
        FetchNews(read);
      }
    }
  }
}
