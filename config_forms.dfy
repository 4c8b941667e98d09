/**
 * The `clean` step of two plugin configuration forms: the min/max bounds of
 * text and multiple-choice fields, and the redirect settings of the form plugin.
 * Both add their messages through `add_form_error`.
 */
module ConfigForms {
  import opened Wrappers
  import opened FormErrors

  // ---------------------------------------------------------------------------
  // MinMaxValueForm

  const MinGreaterThanMax := "Min value can not be greater than max value."
  const RequiredNeedsMinimum := "If checkbox \"Field is required\" is set, \"Min choices\" must be at least 1."

  /** Python truthiness of an optional integer: `None` and `0` are false. */
  predicate IsSet(v: Option<int>)
  {
    v.Some? && v.value != 0
  }

  /** Both bounds given (and non-zero) and in the wrong order. */
  predicate BoundsInverted(minValue: Option<int>, maxValue: Option<int>)
  {
    IsSet(minValue) && IsSet(maxValue) && minValue.value > maxValue.value
  }

  /** A required field whose minimum is given but below one. */
  predicate RequiredMinimumTooSmall(minValue: Option<int>, required: bool)
  {
    required && minValue.Some? && minValue.value < 1
  }

  /** The errors the min/max check adds, in the order it adds them; all go to `min_value`. */
  function MinMaxErrors(minValue: Option<int>, maxValue: Option<int>, required: bool): (r: seq<(string, string)>)
    ensures forall e :: e in r ==> e.0 == "min_value"
    ensures ("min_value", MinGreaterThanMax) in r <==> BoundsInverted(minValue, maxValue)
    ensures ("min_value", RequiredNeedsMinimum) in r <==> RequiredMinimumTooSmall(minValue, required)
    ensures r == [] <==> !BoundsInverted(minValue, maxValue) && !RequiredMinimumTooSmall(minValue, required)
    ensures |r| == 2 ==> r[0].1 == MinGreaterThanMax && r[1].1 == RequiredNeedsMinimum
  {
    (if BoundsInverted(minValue, maxValue) then [("min_value", MinGreaterThanMax)] else [])
    + (if RequiredMinimumTooSmall(minValue, required) then [("min_value", RequiredNeedsMinimum)] else [])
  }

  /** Every message of the check lands in the `min_value` list, after the ones already there. */
  lemma MinMaxErrorsGoToMinValue(m: ErrorMap, minValue: Option<int>, maxValue: Option<int>, required: bool)
    ensures var r := WithErrors(m, MinMaxErrors(minValue, maxValue, required));
            && (forall f :: f in m && f != "min_value" ==> f in r && r[f] == m[f])
            && (MinMaxErrors(minValue, maxValue, required) != [] ==>
                  "min_value" in r
                  && r["min_value"] == (if "min_value" in m then m["min_value"] else [])
                                       + seq(|MinMaxErrors(minValue, maxValue, required)|,
                                             i requires 0 <= i < |MinMaxErrors(minValue, maxValue, required)| =>
                                               MinMaxErrors(minValue, maxValue, required)[i].1))
  {
    var es := MinMaxErrors(minValue, maxValue, required);
    forall f | f in m && f != "min_value" {
      WithErrorsKeepsOtherFields(m, es, f);
    }
    MessagesForSameField(es, "min_value");
    WithErrorsAt(m, es, "min_value");
  }

  /** When every entry names `field`, the messages for it are all the messages, in order. */
  lemma {:induction false} MessagesForSameField(entries: seq<(string, string)>, field: string)
    requires forall e :: e in entries ==> e.0 == field
    ensures MessagesFor(entries, field) == seq(|entries|, i requires 0 <= i < |entries| => entries[i].1)
  {
    if entries != [] {
      MessagesForSameField(entries[..|entries| - 1], field);
    }
  }

  /** The cleaned data a min/max configuration form reads, and its error lists. */
  class MinMaxValueForm {
    var minValue: Option<int>
    var maxValue: Option<int>
    var required: bool
    const errorState: ErrorState

    constructor (minValue: Option<int>, maxValue: Option<int>, required: bool, errorState: ErrorState)
      ensures this.minValue == minValue && this.maxValue == maxValue && this.required == required
      ensures this.errorState == errorState
    {
      this.minValue := minValue;
      this.maxValue := maxValue;
      this.required := required;
      this.errorState := errorState;
    }

    /**
     * `MinMaxValueForm.clean`; called by the form's full clean, which has set up
     * the error dict. The cleaned data is returned unchanged.
     */
    method Clean()
      requires errorState.errors.Some?
      modifies errorState
      ensures errorState.errors == Some(WithErrors(old(errorState.errors.value), MinMaxErrors(minValue, maxValue, required)))
    {
      ghost var start := errorState.errors.value;
      if IsSet(minValue) && IsSet(maxValue) && minValue.value > maxValue.value {
        var raised := errorState.AddFormError(MinGreaterThanMax, "min_value");
      }
      ghost var middle := errorState.errors.value;
      assert middle == WithErrors(start, if BoundsInverted(minValue, maxValue) then [("min_value", MinGreaterThanMax)] else []);
      if required && minValue.Some? && minValue.value < 1 {
        var raised := errorState.AddFormError(RequiredNeedsMinimum, "min_value");
      }
      ghost var es := MinMaxErrors(minValue, maxValue, required);
      assert es == (if BoundsInverted(minValue, maxValue) then [("min_value", MinGreaterThanMax)] else [])
                   + (if RequiredMinimumTooSmall(minValue, required) then [("min_value", RequiredNeedsMinimum)] else []);
      assert |es| == 2 ==> es[..1] == [("min_value", MinGreaterThanMax)];
    }
  }

  // ---------------------------------------------------------------------------
  // FormPluginForm

  /**
   * The redirect choice: the model field's two choices, or any other non-empty
   * value a caller stores. `OtherRedirect` never holds `""` (an empty choice is
   * `None` in `RedirectSettings`) nor the text of one of the two choices.
   */
  datatype RedirectType = RedirectToPage | RedirectToUrl | OtherRedirect(value: string)

  /** The redirect part of the form plugin's cleaned data; `None` is a missing or empty value. */
  datatype RedirectSettings = RedirectSettings(redirectType: Option<RedirectType>, redirectPage: Option<nat>, url: Option<string>)

  const PageRequired := "Please provide CMS page for redirect."
  const UrlRequired := "Please provide an absolute URL for redirect."

  /** Python truthiness of an optional string. */
  predicate HasText(s: Option<string>)
  {
    s.Some? && s.value != ""
  }

  /** The settings after `clean`: the target that the redirect type does not use is cleared. */
  function NormalizedRedirect(s: RedirectSettings): (r: RedirectSettings)
    ensures r.redirectType == s.redirectType
    ensures s.redirectType == Some(RedirectToPage) ==> r.url.None? && r.redirectPage == s.redirectPage
    ensures s.redirectType == Some(RedirectToUrl) ==> r.redirectPage.None? && r.url == s.url
    ensures s.redirectType.None? ==> r.url.None? && r.redirectPage.None?
    ensures (s.redirectType.Some? && s.redirectType.value.OtherRedirect?) ==> r == s
  {
    match s.redirectType
    case None => s.(url := None, redirectPage := None)
    case Some(RedirectToPage) => s.(url := None)
    case Some(RedirectToUrl) => s.(redirectPage := None)
    case Some(OtherRedirect(_)) => s
  }

  /** The errors for a redirect type whose target is missing. */
  function RedirectErrors(s: RedirectSettings): (r: seq<(string, string)>)
    ensures r == [] <==> !(s.redirectType == Some(RedirectToPage) && s.redirectPage.None?)
                         && !(s.redirectType == Some(RedirectToUrl) && !HasText(s.url))
    ensures r != [] ==> |r| == 1
    ensures r == [("redirect_page", PageRequired)] <==> s.redirectType == Some(RedirectToPage) && s.redirectPage.None?
    ensures r == [("url", UrlRequired)] <==> s.redirectType == Some(RedirectToUrl) && !HasText(s.url)
  {
    match s.redirectType
    case Some(RedirectToPage) => if s.redirectPage.None? then [("redirect_page", PageRequired)] else []
    case Some(RedirectToUrl) => if !HasText(s.url) then [("url", UrlRequired)] else []
    case _ => []
  }

  /** Cleaning twice changes nothing more: the normalised settings are a fixed point. */
  lemma NormalizedRedirectIdempotent(s: RedirectSettings)
    ensures NormalizedRedirect(NormalizedRedirect(s)) == NormalizedRedirect(s)
    ensures RedirectErrors(NormalizedRedirect(s)) == RedirectErrors(s)
  {
  }

  /** After cleaning with either known redirect type, or none, at most one target remains. */
  lemma AtMostOneRedirectTarget(s: RedirectSettings)
    requires s.redirectType.None? || !s.redirectType.value.OtherRedirect?
    ensures NormalizedRedirect(s).url.None? || NormalizedRedirect(s).redirectPage.None?
  {
  }

  /** The message returned by the action backend's form hook, when it is not empty. */
  function BackendErrors(backendError: Option<string>): (r: seq<(string, string)>)
    ensures r == [] <==> !HasText(backendError)
    ensures r != [] ==> r == [("action_backend", backendError.value)]
  {
    if HasText(backendError) then [("action_backend", backendError.value)] else []
  }

  /** The cleaned data of the form plugin's configuration form, and its error lists. */
  class FormPluginForm {
    var redirectType: Option<RedirectType>
    var redirectPage: Option<nat>
    var url: Option<string>
    const errorState: ErrorState

    constructor (settings: RedirectSettings, errorState: ErrorState)
      ensures Redirect() == settings && this.errorState == errorState
    {
      redirectType := settings.redirectType;
      redirectPage := settings.redirectPage;
      url := settings.url;
      this.errorState := errorState;
    }

    function Redirect(): RedirectSettings
      reads this
    {
      RedirectSettings(redirectType, redirectPage, url)
    }

    /**
     * `FormPluginForm.clean`. `backendError` is what the `clean_form` hook of the
     * backend named in the cleaned data returns (`None` without such a backend or hook).
     */
    method Clean(backendError: Option<string>)
      requires errorState.errors.Some?
      modifies this, errorState
      ensures Redirect() == NormalizedRedirect(old(Redirect()))
      ensures errorState.errors
           == Some(WithErrors(old(errorState.errors.value), RedirectErrors(old(Redirect())) + BackendErrors(backendError)))
    {
      ghost var start := errorState.errors.value;
      ghost var settings := Redirect();
      if redirectType.Some? {
        if redirectType.value == RedirectToPage {
          if redirectPage.None? {
            var raised := errorState.AddFormError(PageRequired, "redirect_page");
            WithErrorsSnoc(start, [], ("redirect_page", PageRequired));
          }
          url := None;
        }
        if redirectType.value == RedirectToUrl {
          if !HasText(url) {
            var raised := errorState.AddFormError(UrlRequired, "url");
            WithErrorsSnoc(start, [], ("url", UrlRequired));
          }
          redirectPage := None;
        }
      } else {
        url := None;
        redirectPage := None;
      }
      assert Redirect() == NormalizedRedirect(settings);
      ghost var middle := errorState.errors.value;
      assert middle == WithErrors(start, RedirectErrors(settings));
      if HasText(backendError) {
        var raised := errorState.AddFormError(backendError.value, "action_backend");
        WithErrorsSnoc(start, RedirectErrors(settings), ("action_backend", backendError.value));
      } else {
        assert RedirectErrors(settings) + BackendErrors(backendError) == RedirectErrors(settings);
      }
    }
  }
}
