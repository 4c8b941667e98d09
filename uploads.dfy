/**
 * Validation of uploaded files: the accepted-types, total-size, file-count and
 * image-dimension checks of the restricted upload fields.
 *
 * A field is given as plain data: the files the submission carries, the optional
 * size limit and the configured accepted-type tokens. Messages are the English
 * texts; the size formatter is a parameter.
 */
module UploadValidation {
  import opened Wrappers
  import opened Strings

  /** One uploaded file as the field sees it. */
  datatype UploadedFile = UploadedFile(name: string, contentType: string, size: nat)

  /** The state of a field with the file-size check: `files`, `max_size`, `accepted_types`. */
  datatype FileField = FileField(files: seq<UploadedFile>, maxSize: Option<int>, acceptedTypes: seq<string>)

  // ---------------------------------------------------------------------------
  // The two regular expressions

  /** Length of the longest prefix of `s` made of `\w` characters. */
  function WordPrefixLength(s: string): (k: nat)
    ensures k <= |s|
    ensures AllWordChars(s[..k])
    ensures k < |s| ==> !IsWordChar(s[k])
  {
    if s != [] && IsWordChar(s[0]) then
      var k := WordPrefixLength(s[1..]);
      assert s[..k + 1] == [s[0]] + s[1..][..k];
      k + 1
    else 0
  }

  /** Length of the longest suffix of `s` made of `\w` characters. */
  function WordSuffixLength(s: string): (k: nat)
    ensures k <= |s|
    ensures AllWordChars(s[|s| - k..])
    ensures k < |s| ==> !IsWordChar(s[|s| - k - 1])
  {
    if s != [] && IsWordChar(s[|s| - 1]) then
      var pre := s[..|s| - 1];
      var k := WordSuffixLength(pre);
      assert s[|s| - (k + 1)..] == pre[|pre| - k..] + [s[|s| - 1]];
      k + 1
    else 0
  }

  /**
   * `re.match(r'(\w+)/\*', token)`: the group `m` when the token starts with one
   * or more word characters followed by a slash and a star (there is no end anchor).
   */
  function WildcardMain(token: string): (r: Option<string>)
    ensures r.Some? ==> |r.value| > 0 && AllWordChars(r.value) && r.value + "/*" <= token
  {
    var k := WordPrefixLength(token);
    if 0 < k && k + 2 <= |token| && token[k] == '/' && token[k + 1] == '*' then
      assert token[..k + 2] == token[..k] + "/*";
      Some(token[..k])
    else None
  }

  lemma {:induction false} WordPrefixStopsAtNonWord(w: string, rest: string)
    requires AllWordChars(w) && rest != [] && !IsWordChar(rest[0])
    ensures WordPrefixLength(w + rest) == |w|
  {
    if w == [] {
      assert w + rest == rest;
    } else {
      assert (w + rest)[1..] == w[1..] + rest;
      WordPrefixStopsAtNonWord(w[1..], rest);
    }
  }

  /** Converse of WildcardMain's contract: every token made of a word `m`, a slash, a star and anything after is a wildcard for `m`. */
  lemma WildcardMainOf(m: string, rest: string)
    requires |m| > 0 && AllWordChars(m)
    ensures WildcardMain(m + "/*" + rest) == Some(m)
  {
    var t := m + "/*" + rest;
    assert t == m + ("/*" + rest);
    WordPrefixStopsAtNonWord(m, "/*" + rest);
    assert t[..|m|] == m;
  }

  /** Drops one final newline: Python's `$` also matches just before it. */
  function WithoutFinalNewline(s: string): (r: string)
    ensures s == r || s == r + "\n"
  {
    if |s| > 0 && s[|s| - 1] == '\n' then
      assert s == s[..|s| - 1] + "\n";
      s[..|s| - 1]
    else s
  }

  /** The final `.` and run of word characters of `body`, when the run is non-empty and a dot precedes it. */
  function DotWordSuffix(body: string): (r: Option<string>)
    ensures r.Some? ==> |r.value| >= 2 && r.value[0] == '.' && AllWordChars(r.value[1..]) && EndsWith(body, r.value)
  {
    var k := WordSuffixLength(body);
    if 0 < k && k < |body| && body[|body| - k - 1] == '.' then
      var e := body[|body| - k - 1..];
      assert e[1..] == body[|body| - k..];
      Some(e)
    else None
  }

  lemma EndsWithNewline(body: string, e: string)
    requires EndsWith(body, e)
    ensures EndsWith(body + "\n", e + "\n")
  {
    var s := body + "\n";
    assert s[|s| - |e| - 1..] == body[|body| - |e|..] + "\n";
  }

  /**
   * `re.search(r'(\.\w+)$', name.lower())`: the last `.` followed by word
   * characters up to the end of the lower-cased name (or up to a final newline).
   */
  function Extension(name: string): (r: Option<string>)
    ensures r.Some? ==> |r.value| >= 2 && r.value[0] == '.' && AllWordChars(r.value[1..])
    ensures r.Some? ==> EndsWith(Lower(name), r.value) || EndsWith(Lower(name), r.value + "\n")
  {
    var s := Lower(name);
    var body := WithoutFinalNewline(s);
    var r := DotWordSuffix(body);
    if r.Some? && s != body then
      EndsWithNewline(body, r.value);
      r
    else r
  }

  lemma {:induction false} WordSuffixStopsAtNonWord(pre: string, w: string)
    requires AllWordChars(w) && pre != [] && !IsWordChar(pre[|pre| - 1])
    ensures WordSuffixLength(pre + w) == |w|
    decreases |w|
  {
    if w == [] {
      assert pre + w == pre;
    } else {
      var s := pre + w;
      assert s[..|s| - 1] == pre + w[..|w| - 1];
      WordSuffixStopsAtNonWord(pre, w[..|w| - 1]);
    }
  }

  lemma DotWordSuffixOf(stem: string, word: string)
    requires |word| > 0 && AllWordChars(word)
    ensures DotWordSuffix(stem + "." + word) == Some("." + word)
  {
    var body := stem + "." + word;
    assert body == (stem + ".") + word;
    WordSuffixStopsAtNonWord(stem + ".", word);
    assert body[|body| - |word| - 1..] == "." + word;
  }

  lemma NewlineStripped(body: string, tail: string)
    requires body != [] && body[|body| - 1] != '\n'
    requires tail == "" || tail == "\n"
    ensures WithoutFinalNewline(body + tail) == body
  {
    var s := body + tail;
    if tail == "\n" {
      assert s[..|s| - 1] == body;
    } else {
      assert s == body;
    }
  }

  /** Converse of Extension's contract: a name ending in `.word` (or `.word` and a newline) has extension `.word`. */
  lemma ExtensionOfSuffix(name: string, stem: string, word: string, tail: string)
    requires Lower(name) == stem + "." + word + tail
    requires |word| > 0 && AllWordChars(word)
    requires tail == "" || tail == "\n"
    ensures Extension(name) == Some("." + word)
  {
    var body := stem + "." + word;
    assert body[|body| - 1] == word[|word| - 1];
    NewlineStripped(body, tail);
    DotWordSuffixOf(stem, word);
  }

  /** `content_type.split("/")[0]`: everything before the first `/`. */
  function MainType(contentType: string): (r: string)
    ensures r <= contentType && '/' !in r
    ensures |r| < |contentType| ==> contentType[|r|] == '/'
  {
    if contentType == [] || contentType[0] == '/' then ""
    else
      var r := MainType(contentType[1..]);
      assert [contentType[0]] + r <= contentType;
      [contentType[0]] + r
  }

  // ---------------------------------------------------------------------------
  // split_mimetypes

  /** The main types of the wildcard tokens, in token order. */
  function WildcardMains(tokens: seq<string>): seq<string>
  {
    if tokens == [] then []
    else
      (match WildcardMain(tokens[0]) case Some(m) => [m] case None => []) + WildcardMains(tokens[1..])
  }

  /** The tokens that are not wildcards, in token order. */
  function PlainTypes(tokens: seq<string>): seq<string>
  {
    if tokens == [] then []
    else (if WildcardMain(tokens[0]).Some? then [] else [tokens[0]]) + PlainTypes(tokens[1..])
  }

  /** Splitting keeps order: the split of a concatenation is the concatenation of the splits. */
  lemma SplitAppend(a: seq<string>, b: seq<string>)
    ensures WildcardMains(a + b) == WildcardMains(a) + WildcardMains(b)
    ensures PlainTypes(a + b) == PlainTypes(a) + PlainTypes(b)
  {
    WildcardMainsAppend(a, b);
    PlainTypesAppend(a, b);
  }

  lemma {:induction false} WildcardMainsAppend(a: seq<string>, b: seq<string>)
    ensures WildcardMains(a + b) == WildcardMains(a) + WildcardMains(b)
  {
    if a == [] {
      assert a + b == b;
    } else {
      assert (a + b)[0] == a[0];
      assert (a + b)[1..] == a[1..] + b;
      WildcardMainsAppend(a[1..], b);
    }
  }

  lemma {:induction false} PlainTypesAppend(a: seq<string>, b: seq<string>)
    ensures PlainTypes(a + b) == PlainTypes(a) + PlainTypes(b)
  {
    if a == [] {
      assert a + b == b;
    } else {
      assert (a + b)[0] == a[0];
      assert (a + b)[1..] == a[1..] + b;
      PlainTypesAppend(a[1..], b);
    }
  }

  /** Every token lands in exactly one of the two outputs. */
  lemma {:induction false} SplitPartition(tokens: seq<string>)
    ensures |WildcardMains(tokens)| + |PlainTypes(tokens)| == |tokens|
  {
    if tokens != [] {
      SplitPartition(tokens[1..]);
    }
  }

  /** Where each token goes: a wildcard contributes its main type, any other token itself. */
  lemma {:induction false} SplitMembership(tokens: seq<string>, t: string)
    requires t in tokens
    ensures WildcardMain(t).Some? ==> WildcardMain(t).value in WildcardMains(tokens)
    ensures WildcardMain(t).None? ==> t in PlainTypes(tokens)
  {
    if tokens[0] != t {
      SplitMembership(tokens[1..], t);
    }
  }

  /** Nothing else is produced: every plain type is a non-wildcard token. */
  lemma {:induction false} PlainTypesAreTokens(tokens: seq<string>, t: string)
    requires t in PlainTypes(tokens)
    ensures t in tokens && WildcardMain(t).None?
  {
    if tokens != [] && !(WildcardMain(tokens[0]).None? && t == tokens[0]) {
      PlainTypesAreTokens(tokens[1..], t);
    }
  }

  /** `split_mimetypes`: one pass over the tokens, appending to two lists. */
  method SplitMimetypes(acceptedTypes: seq<string>) returns (accepted: seq<string>, mainMimetypes: seq<string>)
    ensures accepted == PlainTypes(acceptedTypes)
    ensures mainMimetypes == WildcardMains(acceptedTypes)
  {
    accepted, mainMimetypes := [], [];
    for i := 0 to |acceptedTypes|
      invariant accepted == PlainTypes(acceptedTypes[..i])
      invariant mainMimetypes == WildcardMains(acceptedTypes[..i])
    {
      var name := acceptedTypes[i];
      assert acceptedTypes[..i + 1] == acceptedTypes[..i] + [name];
      SplitAppend(acceptedTypes[..i], [name]);
      match WildcardMain(name)
      case Some(m) =>
        mainMimetypes := mainMimetypes + [m];
      case None =>
        accepted := accepted + [name];
    }
    assert acceptedTypes[..|acceptedTypes|] == acceptedTypes;
  }

  // ---------------------------------------------------------------------------
  // The accepted-types check

  /** A file passes on its extension, its exact content type, or a wildcard main type. */
  predicate TypeAccepted(f: UploadedFile, acceptedTypes: seq<string>)
  {
    var extension := Extension(f.name);
    || (extension.Some? && extension.value in acceptedTypes)
    || f.contentType in acceptedTypes
    || MainType(f.contentType) in WildcardMains(acceptedTypes)
  }

  /** A wildcard token (main type, slash, star) accepts every file whose content type has that (word) main type. */
  lemma WildcardAcceptsMainType(f: UploadedFile, acceptedTypes: seq<string>, rest: string)
    requires MainType(f.contentType) != "" && AllWordChars(MainType(f.contentType))
    requires MainType(f.contentType) + "/*" + rest in acceptedTypes
    ensures TypeAccepted(f, acceptedTypes)
  {
    var m := MainType(f.contentType);
    WildcardMainOf(m, rest);
    SplitMembership(acceptedTypes, m + "/*" + rest);
  }

  /** The files rejected for type, in upload order. */
  function RejectedFiles(files: seq<UploadedFile>, acceptedTypes: seq<string>): seq<UploadedFile>
  {
    if files == [] then []
    else (if TypeAccepted(files[0], acceptedTypes) then [] else [files[0]]) + RejectedFiles(files[1..], acceptedTypes)
  }

  /** Rejection keeps upload order. */
  lemma {:induction false} RejectedFilesAppend(a: seq<UploadedFile>, b: seq<UploadedFile>, acceptedTypes: seq<string>)
    ensures RejectedFiles(a + b, acceptedTypes) == RejectedFiles(a, acceptedTypes) + RejectedFiles(b, acceptedTypes)
  {
    if a == [] {
      assert a + b == b;
    } else {
      assert (a + b)[1..] == a[1..] + b;
      RejectedFilesAppend(a[1..], b, acceptedTypes);
    }
  }

  /** A file is listed as rejected exactly when it was uploaded and fails the type test. */
  lemma {:induction false} RejectedFilesMembership(files: seq<UploadedFile>, acceptedTypes: seq<string>, f: UploadedFile)
    ensures f in RejectedFiles(files, acceptedTypes) <==> f in files && !TypeAccepted(f, acceptedTypes)
  {
    if files != [] {
      RejectedFilesMembership(files[1..], acceptedTypes, f);
    }
  }

  // ---------------------------------------------------------------------------
  // Messages

  const AcceptedTypesLabel := "Accepted file types are"

  function NotAcceptedMessage(fileName: string): string
  {
    "\"" + fileName + "\" is not of accepted file type."
  }

  function NotAcceptedMessages(files: seq<UploadedFile>): (r: seq<string>)
    ensures |r| == |files|
    ensures forall i :: 0 <= i < |files| ==> r[i] == NotAcceptedMessage(files[i].name)
  {
    seq(|files|, i requires 0 <= i < |files| => NotAcceptedMessage(files[i].name))
  }

  /** One sentence per rejected file, then the full list of accepted types. */
  function TypeErrorMessage(rejected: seq<UploadedFile>, acceptedTypes: seq<string>): string
  {
    Join(" ", NotAcceptedMessages(rejected)) + " " + AcceptedTypesLabel + ": " + Join(", ", acceptedTypes) + "."
  }

  /** The singular wording for one file, the "total" wording for several. */
  function SizeErrorMessage(fileCount: nat, maxSize: int, formatSize: int -> string): string
  {
    if fileCount > 1 then "The total file size has exceeded the specified limit " + formatSize(maxSize) + "."
    else "File size exceeded the specified limit " + formatSize(maxSize) + "."
  }

  // ---------------------------------------------------------------------------
  // The file-size check of the mixin, specified

  /** Sum of the sizes of the files. */
  function TotalSize(files: seq<UploadedFile>): nat
  {
    if files == [] then 0 else TotalSize(files[..|files| - 1]) + files[|files| - 1].size
  }

  predicate AllTypesAccepted(field: FileField)
  {
    field.acceptedTypes == [] || forall f :: f in field.files ==> TypeAccepted(f, field.acceptedTypes)
  }

  /** A total equal to the limit passes; no limit means no check. */
  predicate WithinSizeLimit(field: FileField)
  {
    field.maxSize.None? || TotalSize(field.files) <= field.maxSize.value
  }

  /** The type error, when accepted types are configured and some file fails them. */
  function TypeViolations(field: FileField): (r: seq<string>)
    ensures r == [] <==> AllTypesAccepted(field)
    ensures r != [] ==> r == [TypeErrorMessage(RejectedFiles(field.files, field.acceptedTypes), field.acceptedTypes)]
  {
    if field.acceptedTypes == [] then []
    else
      var rejected := RejectedFiles(field.files, field.acceptedTypes);
      assert rejected == [] <==> forall f :: f in field.files ==> TypeAccepted(f, field.acceptedTypes) by {
        forall f {
          RejectedFilesMembership(field.files, field.acceptedTypes, f);
        }
        if rejected != [] {
          RejectedFilesMembership(field.files, field.acceptedTypes, rejected[0]);
        }
      }
      if rejected == [] then [] else [TypeErrorMessage(rejected, field.acceptedTypes)]
  }

  /** The size error, when a limit is set and the total is strictly above it. */
  function SizeViolations(field: FileField, formatSize: int -> string): (r: seq<string>)
    ensures r == [] <==> WithinSizeLimit(field)
    ensures r != [] ==> r == [SizeErrorMessage(|field.files|, field.maxSize.value, formatSize)]
  {
    if field.maxSize.Some? && TotalSize(field.files) > field.maxSize.value then
      [SizeErrorMessage(|field.files|, field.maxSize.value, formatSize)]
    else []
  }

  /**
   * What `clean` of the mixin returns: the files when nothing is wrong (`[]` for
   * no files), otherwise one error joining the type error and the size error.
   */
  function CleanedFiles(field: FileField, formatSize: int -> string): (r: Result<seq<UploadedFile>, string>)
    ensures r.Ok? <==> field.files == [] || (AllTypesAccepted(field) && WithinSizeLimit(field))
    ensures r.Ok? ==> r.value == field.files
    ensures r.Err? ==> r.error == Join(" ", TypeViolations(field) + SizeViolations(field, formatSize))
  {
    if field.files == [] then Ok([])
    else
      var errors := TypeViolations(field) + SizeViolations(field, formatSize);
      if errors == [] then Ok(field.files) else Err(Join(" ", errors))
  }

  /** Type error first, size error second, joined by a space. */
  lemma BothViolationsJoined(field: FileField, formatSize: int -> string)
    requires field.files != []
    requires !AllTypesAccepted(field) && !WithinSizeLimit(field)
    ensures CleanedFiles(field, formatSize)
         == Err(TypeErrorMessage(RejectedFiles(field.files, field.acceptedTypes), field.acceptedTypes)
                + " " + SizeErrorMessage(|field.files|, field.maxSize.value, formatSize))
  {
    var errors := TypeViolations(field) + SizeViolations(field, formatSize);
    assert |errors| == 2;
    assert errors[1..] == [SizeErrorMessage(|field.files|, field.maxSize.value, formatSize)];
  }

  lemma MessagesAppend(a: seq<UploadedFile>, b: seq<UploadedFile>)
    ensures NotAcceptedMessages(a + b) == NotAcceptedMessages(a) + NotAcceptedMessages(b)
  {
  }

  /** The accepted-types loop of the mixin's `clean`: one sentence per rejected file, in upload order. */
  method CollectTypeErrors(files: seq<UploadedFile>, acceptedTypes: seq<string>, mainMimetypes: seq<string>)
    returns (errors: seq<string>)
    requires mainMimetypes == WildcardMains(acceptedTypes)
    ensures errors == NotAcceptedMessages(RejectedFiles(files, acceptedTypes))
  {
    errors := [];
    for i := 0 to |files|
      invariant errors == NotAcceptedMessages(RejectedFiles(files[..i], acceptedTypes))
    {
      var f := files[i];
      var extension := Extension(f.name);
      var passes := || (extension.Some? && extension.value in acceptedTypes)
                    || f.contentType in acceptedTypes
                    || MainType(f.contentType) in mainMimetypes;
      assert passes == TypeAccepted(f, acceptedTypes);
      RejectedMessagesStep(files, i, acceptedTypes);
      if !passes {
        errors := errors + [NotAcceptedMessage(f.name)];
      }
    }
    assert files[..|files|] == files;
  }

  lemma RejectedMessagesStep(files: seq<UploadedFile>, i: nat, acceptedTypes: seq<string>)
    requires i < |files|
    ensures NotAcceptedMessages(RejectedFiles(files[..i + 1], acceptedTypes))
         == NotAcceptedMessages(RejectedFiles(files[..i], acceptedTypes))
            + (if TypeAccepted(files[i], acceptedTypes) then [] else [NotAcceptedMessage(files[i].name)])
  {
    var pre := files[..i];
    var x := files[i];
    assert files[..i + 1] == pre + [x];
    RejectedFilesAppend(pre, [x], acceptedTypes);
    RejectedSingle(x, acceptedTypes);
    MessagesAppend(RejectedFiles(pre, acceptedTypes), RejectedFiles([x], acceptedTypes));
  }

  lemma RejectedSingle(x: UploadedFile, acceptedTypes: seq<string>)
    ensures RejectedFiles([x], acceptedTypes) == if TypeAccepted(x, acceptedTypes) then [] else [x]
  {
    assert [x][1..] == [];
  }

  /** The size loop of the mixin's `clean`: the running sum of the file sizes. */
  method SumSizes(files: seq<UploadedFile>) returns (filesSizeSummary: nat)
    ensures filesSizeSummary == TotalSize(files)
  {
    filesSizeSummary := 0;
    for i := 0 to |files|
      invariant filesSizeSummary == TotalSize(files[..i])
    {
      assert files[..i + 1][..i] == files[..i];
      filesSizeSummary := filesSizeSummary + files[i].size;
    }
    assert files[..|files|] == files;
  }

  /**
   * `FileSizeCheckMixin.clean`: the accepted-types errors, the size error, and
   * one error joining everything found.
   */
  method CleanFiles(field: FileField, formatSize: int -> string) returns (r: Result<seq<UploadedFile>, string>)
    ensures r == CleanedFiles(field, formatSize)
  {
    if field.files == [] {
      return Ok([]);
    }
    var allErrors: seq<string> := [];

    if field.acceptedTypes != [] {
      var accepted, mainMimetypes := SplitMimetypes(field.acceptedTypes);
      var errors := CollectTypeErrors(field.files, field.acceptedTypes, mainMimetypes);
      if errors != [] {
        allErrors := allErrors + [Join(" ", errors) + " " + AcceptedTypesLabel + ": " + Join(", ", field.acceptedTypes) + "."];
      }
    }
    assert allErrors == TypeViolations(field);

    if field.maxSize.Some? {
      var filesSizeSummary := SumSizes(field.files);
      if filesSizeSummary > field.maxSize.value {
        allErrors := allErrors + [SizeErrorMessage(|field.files|, field.maxSize.value, formatSize)];
      }
    }
    assert allErrors == TypeViolations(field) + SizeViolations(field, formatSize);

    if allErrors != [] {
      return Err(Join(" ", allErrors));
    }
    return Ok(field.files);
  }

  // ---------------------------------------------------------------------------
  // The multi-file field and the image field

  function CountErrorMessage(limit: nat): string
  {
    "The number of uploaded files exceeded the set limit of " + NatToString(limit) + "."
  }

  /**
   * `RestrictedMultipleFilesField.clean`: the mixin's checks, then a file-count
   * limit that only `None` switches off.
   */
  function CleanedMultipleFiles(field: FileField, maxFiles: Option<nat>, formatSize: int -> string)
    : (r: Result<seq<UploadedFile>, string>)
    ensures CleanedFiles(field, formatSize).Err? ==> r == CleanedFiles(field, formatSize)
    ensures r.Ok? <==> CleanedFiles(field, formatSize).Ok? && (maxFiles.None? || |field.files| <= maxFiles.value)
    ensures r.Ok? ==> r.value == field.files
    ensures r.Err? && CleanedFiles(field, formatSize).Ok? ==> r.error == CountErrorMessage(maxFiles.value)
  {
    match CleanedFiles(field, formatSize)
    case Err(e) => Err(e)
    case Ok(_) =>
      if field.files == [] then Ok([])
      else if maxFiles.Some? && |field.files| > maxFiles.value then Err(CountErrorMessage(maxFiles.value))
      else Ok(field.files)
  }

  /** Python truthiness of an optional limit: `None` and `0` both switch the check off. */
  predicate LimitSet(limit: Option<nat>)
  {
    limit.Some? && limit.value != 0
  }

  predicate WithinLimit(actual: nat, limit: Option<nat>)
  {
    !LimitSet(limit) || actual <= limit.value
  }

  function DimensionMessage(dimension: string, maxSize: nat, actualSize: nat): string
  {
    "Image " + dimension + " must be under " + NatToString(maxSize) + " pixels. Current "
      + dimension + " is " + NatToString(actualSize) + " pixels."
  }

  /**
   * `RestrictedImageField.clean` with the decoded width and height given: the
   * mixin's checks, then the width limit, then the height limit.
   */
  function CleanedImage(field: FileField, formatSize: int -> string, width: nat, height: nat,
                        maxWidth: Option<nat>, maxHeight: Option<nat>)
    : (r: Result<seq<UploadedFile>, string>)
    ensures CleanedFiles(field, formatSize).Err? ==> r == CleanedFiles(field, formatSize)
    ensures r.Ok? <==> CleanedFiles(field, formatSize).Ok? && WithinLimit(width, maxWidth) && WithinLimit(height, maxHeight)
    ensures r.Ok? ==> r.value == field.files
    ensures (CleanedFiles(field, formatSize).Ok? && !WithinLimit(width, maxWidth))
      ==> r == Err(DimensionMessage("width", maxWidth.value, width))
    ensures (CleanedFiles(field, formatSize).Ok? && WithinLimit(width, maxWidth) && !WithinLimit(height, maxHeight))
      ==> r == Err(DimensionMessage("height", maxHeight.value, height))
  {
    match CleanedFiles(field, formatSize)
    case Err(e) => Err(e)
    case Ok(data) =>
      if !(LimitSet(maxWidth) || LimitSet(maxHeight)) then Ok(data)
      else if LimitSet(maxWidth) && width > maxWidth.value then Err(DimensionMessage("width", maxWidth.value, width))
      else if LimitSet(maxHeight) && height > maxHeight.value then Err(DimensionMessage("height", maxHeight.value, height))
      else Ok(data)
  }
}
