# aldryn-forms: upload checks, configuration forms, serialisation and plugin walks

This project is a Dafny model of the validation and helper logic of the
django CMS forms application aldryn-forms:

- the upload fields: which files a restricted file field accepts by extension
  or content type (with `type/*` wildcards), the total-size limit, the limit on
  the number of files, and the image width/height limits, with the exact
  messages the fields raise;
- the error lists of a form (`add_form_error` and the submission form's
  `_add_error`) and the two configuration forms whose `clean` adds to them:
  the min/max bounds check and the form plugin's redirect normalisation;
- the serialised-field pipeline of the submission form;
- the action-backend registry check (`get_action_backends`) and the sorted
  backend choice list;
- the two plugin walks: `get_nested_plugins` (pre-order flattening with alias
  plugins replaced by their descendants) and the level-by-level collection of
  `get_plugin_tree`.

Modules, one per file: `Wrappers` (Option, Result), `Strings` (join, ASCII
word characters, lower-casing, decimal rendering), `UploadValidation`,
`FormErrors`, `ConfigForms`, `Serialization`, `ActionBackends`, `PluginTree`.

Where the code mutates state, the model does too: the error map is a field of
the class `FormErrors.ErrorState`, the configuration forms are classes whose
`Clean` methods update the shared error state (the redirect form's `Clean` also
updates its cleaned data), and the
loops of the upload check, `split_mimetypes`, `get_nested_plugins` and
`get_plugin_tree` are methods with `while`/`for` loops proved equal to pure
specification functions. The properties are proved about those functions.

Inputs the code reads from the framework are parameters: the text
`filesizeformat` produces (`formatSize`), the decoded image size, the message
an action backend's `clean_form` hook returns, the classes `import_string`
finds (a table from dotted paths to class descriptions), the registry key size
limit, and the plugin table that `CMSPlugin.objects.all()` returns.
Translations are taken to be the identity on the English messages.

## Model

| member | source | states |
|---|---|---|
| UploadValidation.WildcardMain | aldryn_forms/forms.py:75-77 | a main type found is a non-empty run of word characters with which the token starts, directly followed by a slash and a star |
| UploadValidation.WildcardMainOf | aldryn_forms/forms.py:75-77 | any non-empty word followed by a slash, a star and anything else is recognised as a wildcard with that word as main type |
| UploadValidation.Extension | aldryn_forms/forms.py:38-39 | an extension found is a dot and one or more word characters that end the lower-cased name, or end it just before a final newline |
| UploadValidation.ExtensionOfSuffix | aldryn_forms/forms.py:38-39 | a name whose lower-cased form ends in a dot and a word (then optionally a newline) has exactly that dot and word as extension |
| UploadValidation.MainType | aldryn_forms/forms.py:43 | the main type is the prefix of the content type up to, not including, the first slash |
| UploadValidation.SplitMimetypes | aldryn_forms/forms.py:70-80 | the loop returns the non-wildcard tokens and the wildcard main types, each in token order |
| UploadValidation.SplitPartition | aldryn_forms/forms.py:70-80 | every token goes to exactly one of the two lists: the counts add up to the number of tokens |
| UploadValidation.SplitMembership | aldryn_forms/forms.py:70-80 | a wildcard token contributes its main type to the wildcard list, and any other token appears in the plain list |
| UploadValidation.WildcardMains | aldryn_forms/forms.py:70-80 | defines the second output of `split_mimetypes`: the main types of the tokens that start with `word/*`, in input order |
| UploadValidation.PlainTypes | aldryn_forms/forms.py:70-80 | defines the first output of `split_mimetypes`: the tokens that do not start with `word/*`, in input order |
| UploadValidation.PlainTypesAreTokens | aldryn_forms/forms.py:70-80 | the plain list holds nothing but input tokens that are not wildcards |
| UploadValidation.TypeAccepted | aldryn_forms/forms.py:40-44 | defines the acceptance rule: the extension, the exact content type, or the content type's main part against the wildcard main types |
| UploadValidation.RejectedFiles | aldryn_forms/forms.py:37-47 | defines the files that fail the acceptance rule, in upload order |
| UploadValidation.TotalSize | aldryn_forms/forms.py:56-58 | defines the sum of the file sizes |
| UploadValidation.NotAcceptedMessage | aldryn_forms/forms.py:45-47 | defines the sentence for one rejected file, naming it |
| UploadValidation.TypeErrorMessage | aldryn_forms/forms.py:48-51 | defines the type error: the rejected files' sentences joined by spaces, then the label and the configured types joined by commas, and a full stop |
| UploadValidation.SizeErrorMessage | aldryn_forms/forms.py:59-64 | defines the size error: the total-size wording for more than one file, the single-file wording otherwise, both with the formatted limit |
| UploadValidation.CountErrorMessage | aldryn_forms/forms.py:97-101 | defines the file-count error, naming the limit |
| UploadValidation.DimensionMessage | aldryn_forms/forms.py:126-144 | defines the width or height error, naming the limit and the actual size in pixels |
| UploadValidation.WildcardAcceptsMainType | aldryn_forms/forms.py:40-44 | a file whose content type's main part matches a configured wildcard is accepted whatever its name |
| UploadValidation.RejectedFilesMembership | aldryn_forms/forms.py:37-47 | a file gets a "not of accepted file type" message exactly when neither its extension, nor its content type, nor its main type is accepted |
| UploadValidation.TypeViolations | aldryn_forms/forms.py:34-51 | no type error exactly when the type list is empty or every file is accepted; otherwise one message listing the rejected files and all accepted types |
| UploadValidation.SizeViolations | aldryn_forms/forms.py:54-64 | no size error exactly when there is no limit or the total size is within it; otherwise the single-file or total-size message, chosen by the file count |
| UploadValidation.CollectTypeErrors | aldryn_forms/forms.py:36-47 | the loop over the files collects one "not of accepted file type" sentence per rejected file, in upload order (the messages of the rejected files); the whole type error is assembled from them by the clean |
| UploadValidation.SumSizes | aldryn_forms/forms.py:56-58 | the accumulated size is the total size of the files |
| UploadValidation.CleanedFiles | aldryn_forms/forms.py:25-68 | cleaning succeeds exactly when there are no files or all types and the total size pass; it returns the files; a failure joins the type error and the size error with a space |
| UploadValidation.BothViolationsJoined | aldryn_forms/forms.py:66-67 | when both checks fail the message is the type error, a space, then the size error |
| UploadValidation.CleanFiles | aldryn_forms/forms.py:25-68 | the imperative check returns exactly what the specification of cleaning returns |
| UploadValidation.CleanedMultipleFiles | aldryn_forms/forms.py:93-102 | a mixin error is passed on; otherwise the files are accepted exactly when no file limit is set or their count is within it, and the count message names the limit |
| UploadValidation.CleanedImage | aldryn_forms/forms.py:112-146 | a mixin error is passed on; otherwise the width limit is checked before the height limit, a zero or missing limit is off, and each message names the limit and the actual size |
| FormErrors.WithError | aldryn_forms/utils.py:118-122 | the message is appended to the field's existing list, or becomes a one-element list; every other field is unchanged |
| FormErrors.WithErrorsAt | aldryn_forms/utils.py:118-122 | after adding several messages in turn, a field is present exactly when it was already or some message names it, and its list is its old list followed by its new messages in order |
| FormErrors.WithErrorsKeepsOtherFields | aldryn_forms/utils.py:118-122 | a field that receives no message keeps its list |
| FormErrors.ErrorState.AddFormError | aldryn_forms/utils.py:118-122 | with an error map present the message is added as above; without one the call fails and nothing changes |
| FormErrors.ErrorState.AddError | aldryn_forms/forms.py:173-179 | the message is added as above; a missing or empty error map is first replaced by an empty one |
| ConfigForms.MinMaxErrors | aldryn_forms/forms.py:288-295 | the inverted-bounds message appears exactly when both bounds are non-zero and min exceeds max, the required message exactly when the field is required and a minimum below one is given, in that order, all for `min_value` |
| ConfigForms.MinMaxErrorsGoToMinValue | aldryn_forms/forms.py:288-295 | the messages end up after the existing `min_value` messages and no other field changes |
| ConfigForms.MinMaxValueForm.Clean | aldryn_forms/forms.py:288-295 | the form's error map gains exactly the min/max messages |
| ConfigForms.NormalizedRedirect | aldryn_forms/forms.py:227-244 | a page redirect clears the URL, a URL redirect clears the page, no redirect type clears both, any other type changes nothing |
| ConfigForms.RedirectErrors | aldryn_forms/forms.py:232-241 | a page redirect without a page, or a URL redirect without a URL, gives exactly its one message; nothing else gives one |
| ConfigForms.NormalizedRedirectIdempotent | aldryn_forms/forms.py:227-244 | cleaning the normalised settings again changes nothing and reports the same errors |
| ConfigForms.AtMostOneRedirectTarget | aldryn_forms/forms.py:232-244 | after cleaning with a page type, a URL type or no type, at most one redirect target remains |
| ConfigForms.BackendErrors | aldryn_forms/forms.py:246-250 | the action backend's message is added exactly when it is non-empty, as the only `action_backend` message |
| ConfigForms.FormPluginForm.Clean | aldryn_forms/forms.py:227-251 | the cleaned redirect data becomes the normalised settings and the error map gains the redirect message, then the backend message |
| Serialization.SerializedFields | aldryn_forms/forms.py:187-194 | every listed entry is the serialisation of a configured field, and there are no more entries than fields |
| Serialization.SerializedFieldsAppend | aldryn_forms/forms.py:187-194 | field order is kept: serialising a concatenation gives the concatenation |
| Serialization.SerializedFieldsComplete | aldryn_forms/forms.py:191-194 | every field that its plugin serialises appears in the output |
| Serialization.SerializedFieldsNoneDeclined | aldryn_forms/forms.py:187-194 | when no plugin declines, the output has one entry per field, in field order |
| Serialization.SerializedFieldChoices | aldryn_forms/forms.py:196-201 | one (label, value) pair per serialised field, in order |
| Serialization.NameValueMap | aldryn_forms/forms.py:205 | defines the `dict(...)` built from (name, value) pairs, a later pair overwriting an earlier one with the same name |
| Serialization.NameValueMapKeys | aldryn_forms/forms.py:205 | the keys of the map are exactly the names of the entries |
| Serialization.LastValueWins | aldryn_forms/forms.py:205 | each name maps to the value of the last entry with that name |
| Serialization.CleanedData | aldryn_forms/forms.py:203-206 | defines the cleaned data: the name-to-value map of the serialised fields |
| Serialization.CleanedDataKeys | aldryn_forms/forms.py:203-206 | the cleaned data has a key for exactly the names of the serialised fields |
| Serialization.CleanedDataLastWins | aldryn_forms/forms.py:203-206 | for a name several serialised fields share, the cleaned data holds the value of the last of them |
| ActionBackends.ImportBackends | aldryn_forms/utils.py:24-27 | importing succeeds exactly when every configured path can be imported and then keeps the keys in order with their classes; a failure names a configured path that cannot be imported |
| ActionBackends.FirstNotInstantiable | aldryn_forms/utils.py:43-46 | the instantiation check stops at the first class that cannot be instantiated |
| ActionBackends.GetActionBackends | aldryn_forms/utils.py:15-47 | the registry is accepted exactly when all paths import, all keys fit the size limit, all classes derive from the base action, `default` is a key, and all classes can be instantiated; it then holds exactly the configured keys in order |
| ActionBackends.FirstFailingCheckReported | aldryn_forms/utils.py:29-41 | with all keys short enough, a non-base class is reported before a missing default, and a missing default is reported when the classes are fine |
| ActionBackends.ResolvedKeysDistinct | aldryn_forms/utils.py:25 | when the configured keys are distinct, as a dict's are, so are the keys of the accepted registry |
| ActionBackends.MissingDefaultFails | aldryn_forms/utils.py:40-41 | a registry without a `default` key is always rejected |
| ActionBackends.Choices | aldryn_forms/utils.py:51 | one (key, verbose name) pair per backend, at the backend's index |
| ActionBackends.SortByName | aldryn_forms/utils.py:52 | defines the sort by verbose name (a stable insertion sort); its properties are those of SortByNameCorrect |
| ActionBackends.LexLe | aldryn_forms/utils.py:52 | defines Python's string order on the verbose names: a common prefix, then the first differing character decides, and a prefix comes first |
| ActionBackends.LexLeTotal | aldryn_forms/utils.py:52 | any two display names are ordered one way or the other |
| ActionBackends.LexLeTransitive | aldryn_forms/utils.py:52 | the string order used by the sort is transitive |
| ActionBackends.InsertWithName | aldryn_forms/utils.py:52 | inserting an entry puts it before the entries with the same name and leaves their order alone |
| ActionBackends.SortByNameCorrect | aldryn_forms/utils.py:52 | the sort output is ordered by display name, is a permutation of its input, and keeps pairs with equal names in input order |
| ActionBackends.ActionBackendChoices | aldryn_forms/utils.py:50-52 | a registry error is passed on; otherwise the result holds exactly the (key, verbose name) pairs, sorted stably by verbose name |
| PluginTree.AliasDescendants | aldryn_forms/utils.py:82-85 | picks the list an alias child contributes: its target's descendants when it has a target, else its own descendants |
| PluginTree.Nested | aldryn_forms/utils.py:69-89 | defines the flattening: the plugin itself with `include_self`, then the children's parts in child order |
| PluginTree.Contributions | aldryn_forms/utils.py:80-87 | defines the parts of a range of children, one after the other in child order |
| PluginTree.Contribution | aldryn_forms/utils.py:80-87 | defines one child's part: an alias's descendants as they are, or an ordinary child's own flattening with itself first |
| PluginTree.GetNestedPlugins | aldryn_forms/utils.py:69-89 | the recursive walk returns exactly the pre-order flattening of the specification |
| PluginTree.NestedSelfFirst | aldryn_forms/utils.py:75-78 | with `include_self` the plugin comes first; a plugin without children yields nothing or just itself |
| PluginTree.ChildInPlace | aldryn_forms/utils.py:80-87 | each child's part sits between the parts of the children before and after it; an alias child contributes exactly its descendants, an ordinary child itself followed by its own flattening |
| PluginTree.NestedMembership | aldryn_forms/utils.py:74-89 | a key is listed exactly when it is the plugin itself (with `include_self`) or it comes from one of the children |
| PluginTree.NextLevel | aldryn_forms/utils.py:113-115 | the next level holds exactly the table rows whose parent is in the current level |
| PluginTree.LevelAt | aldryn_forms/utils.py:102-109 | defines the level `n` steps below the root: the next level taken `n` times |
| PluginTree.Listing | aldryn_forms/utils.py:102-109 | defines the levels 0 to `n`, one after the other, as the loop accumulates them |
| PluginTree.GetPluginTree | aldryn_forms/utils.py:92-110 | the root with its parent cleared comes first, then every level in turn, stopping at the first empty level; each added level is non-empty; the list holds every table row whose parent it holds |
| PluginTree.ListingClosedUnderChildren | aldryn_forms/utils.py:102-110 | the collected list holds every table row whose parent it holds |
| PluginTree.ListingRowsAreChildren | aldryn_forms/utils.py:106-115 | every row of a level below the root is a table row whose parent is in the level above |

## Left out

- The base `clean` of Django's file and image fields, ModelForm metadata, `FormSubmissionBaseForm.__init__` and `save`, `FormPluginForm.__init__` and `EmailFieldForm.clean` are framework code and are not modelled.
- `ugettext` and `filesizeformat`: translation is the identity on the English messages, and the size text is the parameter `formatSize`.
- UploadValidation.Extension: `\w` is modelled as ASCII letters, digits and underscore, and `lower()` as ASCII lower-casing; Python's Unicode classes are not modelled. The same holds for UploadValidation.WildcardMain.
- UploadValidation.CleanedImage: models the intended width and height checks with the decoded size as inputs, not the code as written. The mixin's `clean` always returns a list (`[]` or the files), so `data` at forms.py:113 is a list: the `data is None` test never holds, `hasattr(data, 'image')` is false, and whenever a width or height limit is set `Image.open(data)` receives that list, whatever the number of files, so the checks at forms.py:126-144 are never reached; that decoding path (`data.image.size`, `Image.open`, `seek`) is not modelled.
- UploadValidation.CleanedFiles: the plain-type list returned by `split_mimetypes` is not used by the check, which tests extensions and content types against the whole configured list; the model does the same.
- ConfigForms.FormPluginForm.Clean: the backend's `clean_form` result is a parameter; `get_action_backends` raising inside `clean` and the lookup of the backend by name are not modelled.
- ConfigForms.MinMaxValueForm.Clean: a missing `required` value is treated as false; `cleaned_data.get` on a missing key and on a `None` value both give `None`.
- Serialization: the field plugins' `serialize_field` is a parameter; the generator is modelled as the list it yields.
- ActionBackends.GetActionBackends: the configured items are a sequence, which could repeat a key where a dict cannot; the model's claims are meant for configurations with DistinctKeys, and ResolvedKeysDistinct carries that over to the result. The configured table (from settings or the built-in default) and the key size limit are parameters; the error texts are reduced to the kind of failure; `issubclass` and instantiation are flags on the class description.
- PluginTree.GetPluginTree: `model.objects.get` is replaced by the root row as input (a missing row is not modelled); `downcast_plugins` is the identity; `build_plugin_tree` is not part of this model, so the method returns the collected list; the table order stands for the unspecified query order; termination needs a rank on keys that grows from parent to child over the whole table, which is more than the walk needs: only the rows reachable from the root must be free of cycles. On a cycle reachable from the root the source's `while` loop (utils.py:106-109) never ends.
- PluginTree.GetNestedPlugins: alias descendants are given on the alias node in path order rather than queried.
- `get_user_model` is a framework lookup and is not modelled.
