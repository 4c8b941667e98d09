/**
 * The per-field error lists of a form (`form._errors`) and the two ways the
 * forms add to them: `add_form_error` and the submission form's `_add_error`.
 */
module FormErrors {
  import opened Wrappers

  /** Field name to its list of messages. */
  type ErrorMap = map<string, seq<string>>

  /** The key under which form-wide errors are kept. */
  const NonFieldErrors: string := "__all__"

  /** Append-or-create: the field's list gains the message at its end; other fields keep theirs. */
  function WithError(m: ErrorMap, field: string, message: string): (r: ErrorMap)
    ensures r.Keys == m.Keys + {field}
    ensures field in m ==> r[field] == m[field] + [message]
    ensures field !in m ==> r[field] == [message]
    ensures forall f :: f in m && f != field ==> r[f] == m[f]
  {
    m[field := (if field in m then m[field] else []) + [message]]
  }

  /** The messages of `entries` addressed to `field`, in order. */
  function MessagesFor(entries: seq<(string, string)>, field: string): seq<string>
  {
    if entries == [] then []
    else
      var last := entries[|entries| - 1];
      MessagesFor(entries[..|entries| - 1], field) + (if last.0 == field then [last.1] else [])
  }

  /** The error map after adding each (field, message) entry in turn. */
  function WithErrors(m: ErrorMap, entries: seq<(string, string)>): ErrorMap
  {
    if entries == [] then m
    else
      var last := entries[|entries| - 1];
      WithError(WithErrors(m, entries[..|entries| - 1]), last.0, last.1)
  }

  /**
   * What adding several entries does to one field: it is present exactly when it
   * was already or some entry names it, and its list is the old one followed by
   * its new messages in order.
   */
  lemma {:induction false} WithErrorsAt(m: ErrorMap, entries: seq<(string, string)>, f: string)
    ensures f in WithErrors(m, entries) <==> f in m || MessagesFor(entries, f) != []
    ensures f in WithErrors(m, entries) ==> WithErrors(m, entries)[f] == (if f in m then m[f] else []) + MessagesFor(entries, f)
  {
    if entries != [] {
      WithErrorsAt(m, entries[..|entries| - 1], f);
    }
  }

  /** Adding one more entry is one more append-or-create. */
  lemma WithErrorsSnoc(m: ErrorMap, entries: seq<(string, string)>, e: (string, string))
    ensures WithErrors(m, entries + [e]) == WithError(WithErrors(m, entries), e.0, e.1)
  {
    assert (entries + [e])[..|entries|] == entries;
  }

  /** Adding entries never touches a field none of them names. */
  lemma {:induction false} WithErrorsKeepsOtherFields(m: ErrorMap, entries: seq<(string, string)>, f: string)
    requires f in m
    requires forall e :: e in entries ==> e.0 != f
    ensures f in WithErrors(m, entries) && WithErrors(m, entries)[f] == m[f]
  {
    NoMessagesFor(entries, f);
    WithErrorsAt(m, entries, f);
  }

  lemma {:induction false} NoMessagesFor(entries: seq<(string, string)>, f: string)
    requires forall e :: e in entries ==> e.0 != f
    ensures MessagesFor(entries, f) == []
  {
    if entries != [] {
      NoMessagesFor(entries[..|entries| - 1], f);
    }
  }

  /** The `_errors` attribute of a form; `None` until the form has been cleaned. */
  class ErrorState {
    var errors: Option<ErrorMap>

    constructor (initial: Option<ErrorMap>)
      ensures errors == initial
    {
      errors := initial;
    }

    /**
     * `add_form_error`: append to the field's list, or create it on a missing key.
     * Only the missing key is caught: on a form without an error dict the lookup
     * raises, reported here as `raised`, and nothing changes.
     */
    method AddFormError(message: string, field: string := NonFieldErrors) returns (raised: bool)
      modifies this
      ensures raised <==> old(errors).None?
      ensures errors == (if raised then old(errors) else Some(WithError(old(errors).value, field, message)))
    {
      if errors.None? {
        return true;
      }
      var current := errors.value;
      if field in current {
        errors := Some(current[field := current[field] + [message]]);
      } else {
        errors := Some(current[field := [message]]);
      }
      return false;
    }

    /**
     * `_add_error` of the submission form: like `add_form_error`, but a missing
     * error dict is created first (an empty one is replaced by a fresh empty one).
     */
    method AddError(message: string, field: string := NonFieldErrors)
      modifies this
      ensures errors == Some(WithError(if old(errors).None? then map[] else old(errors).value, field, message))
    {
      if errors.Some? && field in errors.value {
        var current := errors.value;
        errors := Some(current[field := current[field] + [message]]);
      } else {
        if errors.None? || errors.value == map[] {
          errors := Some(map[]);
        }
        errors := Some(errors.value[field := [message]]);
      }
    }
  }
}
