/**
 * The announcement editor form: it starts from the announcement being edited
 * (or from an empty draft), and a submit upserts the form, carrying the row id
 * only when editing, then returns to the announcements list or shows an error.
 */
module AnnouncementForm {
  import opened Base

  datatype Status = Draft | Published | Archived

  /** The announcement handed to the form for editing. */
  datatype AnnouncementData = AnnouncementData(id: Option<string>, title: string, content: string, status: Status)

  /** The edited fields. */
  datatype FormData = FormData(title: string, content: string, status: Status)

  /** The row sent to `upsert`; `id` is present only when editing. */
  datatype Upsert = Upsert(id: Option<string>, title: string, content: string, status: Status, updatedAt: string)

  const ListPath := "/admin/announcements"
  const FallbackMessage := "Failed to save announcement"

  /** The initial form: the edited announcement's fields, or an empty draft. */
  function InitialForm(initial: Option<AnnouncementData>): (f: FormData)
    ensures initial.None? ==> f == FormData("", "", Draft)
    ensures initial.Some? ==>
      f.title == initial.value.title && f.content == initial.value.content && f.status == initial.value.status
  {
    FormData(if initial.Some? then OrElse(Some(initial.value.title), "") else "",
             if initial.Some? then OrElse(Some(initial.value.content), "") else "",
             if initial.Some? then initial.value.status else Draft)
  }

  /** The id spread into the payload: only a present, non-empty id. */
  function PayloadId(initial: Option<AnnouncementData>): (id: Option<string>)
    ensures id.Some? <==> initial.Some? && initial.value.id.Some? && initial.value.id.value != ""
    ensures id.Some? ==> id == initial.value.id
  {
    if initial.Some? && initial.value.id.Some? && initial.value.id.value != "" then initial.value.id else None
  }

  class Form {
    const initialData: Option<AnnouncementData>
    var formData: FormData
    var loading: bool
    var error: string
    /** The paths pushed on the router. */
    var navigations: seq<string>
    /** How many times `router.refresh()` was called. */
    var refreshes: nat

    constructor (initial: Option<AnnouncementData>)
      ensures initialData == initial && formData == InitialForm(initial)
      ensures !loading && error == "" && navigations == [] && refreshes == 0
    {
      initialData := initial;
      formData := InitialForm(initial);
      loading := false;
      error := "";
      navigations := [];
      refreshes := 0;
    }

    /** The status select: any of the three statuses, nothing else. */
    method SetStatus(s: Status)
      modifies this`formData
      ensures formData == old(formData).(status := s)
    {
      formData := formData.(status := s);
    }

    /** The start of `handleSubmit`, up to the upsert it sends: loading is on and
        the previous error is cleared; the payload is the form plus the id of
        the edited row, if any, and the clock's time. */
    method BeginSubmit(now: string) returns (payload: Upsert)
      modifies this`loading, this`error
      ensures loading && error == ""
      ensures payload.id == PayloadId(initialData)
      ensures payload.title == formData.title && payload.content == formData.content
      ensures payload.status == formData.status && payload.updatedAt == now
    {
      loading := true;
      error := "";
      payload := Upsert(PayloadId(initialData), formData.title, formData.content, formData.status, now);
    }

    /** The end of `handleSubmit`, once the upsert replied: success navigates to
        the list, failure shows the error's message or the fallback text; loading
        is off either way. */
    method FinishSubmit(reply: Outcome)
      modifies this`loading, this`error, this`navigations, this`refreshes
      ensures !loading
      ensures reply.Pass? ==>
        (navigations == old(navigations) + [ListPath] && refreshes == old(refreshes) + 1 && error == old(error))
      ensures reply.Fail? ==>
        (navigations == old(navigations) && refreshes == old(refreshes)
         && error == MessageOr(reply.error, FallbackMessage))
    {
      if reply.Pass? {
        navigations := navigations + [ListPath];
        refreshes := refreshes + 1;
      } else {
        error := MessageOr(reply.error, FallbackMessage);
      }
      loading := false;
    }
  }
}
