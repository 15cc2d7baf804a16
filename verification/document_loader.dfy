/** `loadFromFile`: the format gate for uploads, the temporary file the parsers read from,
    and the wrapping of parser failures. Writing, parsing and removing the temporary file
    are events with outcomes given as parameters; the parsers themselves are not modelled. */
module DocumentLoader {
  import opened Wrappers
  import opened Strings
  import opened Paths
  import opened Errors
  import opened Documents

  /** The uploaded file: its bytes, declared MIME type and original name, each optional. */
  datatype UploadedFile = UploadedFile(buffer: Option<seq<bv8>>, mimetype: Option<string>, originalname: Option<string>)

  /** The two loaders: PDF pages or plain text. */
  datatype Kind = Pdf | Txt

  /** What the call does to the file system and the parsers, in order. */
  datatype Event = WriteFile(path: string) | LoadWith(kind: Kind, path: string) | Unlink(path: string)

  /** What the call resolves or rejects with, and what it did on the way. */
  datatype LoadRun = LoadRun(result: Result<seq<Document>, Error>, events: seq<Event>)

  const BufferRequired: Error := BadRequest("File buffer is required")
  const UnsupportedFormat: Error := BadRequest("Only PDF and TXT are allowed (mimetype or extension .pdf / .txt)")
  const LoadFailedPrefix: string := "Failed to load document: "

  const PdfMime: string := "application/pdf"
  const TxtMime: string := "text/plain"
  const PdfExt: string := ".pdf"
  const TxtExt: string := ".txt"
  const DefaultName: string := "upload"
  const TempPrefix: string := "rag-upload-"

  /** `s || ''`: absent and empty read alike. */
  function OrEmpty(s: Option<string>): string {
    s.GetOr("")
  }

  function LowerMime(f: UploadedFile): string {
    ToLower(OrEmpty(f.mimetype))
  }

  function LowerExt(f: UploadedFile): string {
    ToLower(ExtName(OrEmpty(f.originalname)))
  }

  predicate IsPdf(f: UploadedFile) {
    LowerMime(f) == PdfMime || LowerExt(f) == PdfExt
  }

  predicate IsTxt(f: UploadedFile) {
    LowerMime(f) == TxtMime || LowerExt(f) == TxtExt
  }

  /** The loader chosen for a file, or none when it is neither PDF nor text; either signal,
      MIME type or extension, suffices, and PDF wins when both kinds match. */
  function Classify(f: UploadedFile): (r: Option<Kind>)
    ensures r == Some(Pdf) <==> IsPdf(f)
    ensures r == Some(Txt) <==> !IsPdf(f) && IsTxt(f)
    ensures r.None? <==> !IsPdf(f) && !IsTxt(f)
  {
    if IsPdf(f) then Some(Pdf) else if IsTxt(f) then Some(Txt) else None
  }

  /** `[a-zA-Z0-9._-]`. */
  predicate SafeChar(c: char) {
    ('a' <= c <= 'z') || ('A' <= c <= 'Z') || ('0' <= c <= '9') || c == '.' || c == '_' || c == '-'
  }

  /** `name.replace(/[^a-zA-Z0-9._-]/g, '_')`. */
  function Sanitize(name: string): (r: string)
    ensures |r| == |name|
    ensures forall i :: 0 <= i < |r| ==> SafeChar(r[i])
    ensures forall i :: 0 <= i < |name| && SafeChar(name[i]) ==> r[i] == name[i]
    ensures forall i :: 0 <= i < |name| && !SafeChar(name[i]) ==> r[i] == '_'
  {
    if name == [] then []
    else [if SafeChar(name[0]) then name[0] else '_'] + Sanitize(name[1..])
  }

  /** Sanitising a sanitised name changes nothing. */
  lemma SanitizeIdempotent(name: string)
    ensures Sanitize(Sanitize(name)) == Sanitize(name)
  {
    SanitizeKeepsSafeNames(Sanitize(name));
  }

  /** A name made only of allowed characters is kept as it is. */
  lemma SanitizeKeepsSafeNames(name: string)
    requires forall i :: 0 <= i < |name| ==> SafeChar(name[i])
    ensures Sanitize(name) == name
  {
  }

  /** The sanitised original name, or `upload` when there is none: never empty, only
      allowed characters, and an original name keeps its length and its allowed
      characters in place, with `_` for every other one. */
  function SafeName(f: UploadedFile): (r: string)
    ensures r != ""
    ensures forall i :: 0 <= i < |r| ==> SafeChar(r[i])
    ensures OrEmpty(f.originalname) == "" ==> r == DefaultName
    ensures OrEmpty(f.originalname) != "" ==>
              var name := OrEmpty(f.originalname);
              && |r| == |name|
              && (forall i :: 0 <= i < |name| && SafeChar(name[i]) ==> r[i] == name[i])
              && (forall i :: 0 <= i < |name| && !SafeChar(name[i]) ==> r[i] == '_')
  {
    if OrEmpty(f.originalname) == "" then
      SanitizeKeepsSafeNames(DefaultName);
      Sanitize(DefaultName)
    else
      Sanitize(OrEmpty(f.originalname))
  }

  /** `rag-upload-${now}-${safeName}`, where `now` is `Date.now()`: the fixed prefix, the
      digits of the timestamp without leading zeros, which read back to it, a dash, and
      the safe name. */
  function TempName(now: nat, f: UploadedFile): (r: string)
    ensures IsPrefix(TempPrefix, r)
    ensures |r| > |TempPrefix| + |SafeName(f)| + 1
    ensures r[|r| - |SafeName(f)|..] == SafeName(f) && r[|r| - |SafeName(f)| - 1] == '-'
    ensures var stamp := r[|TempPrefix|..|r| - |SafeName(f)| - 1];
            && (forall i :: 0 <= i < |stamp| ==> IsDigit(stamp[i]))
            && (|stamp| > 1 ==> stamp[0] != '0')
            && DigitsValue(stamp) == now
  {
    var digits := Decimal(now);
    var r := TempPrefix + digits + ("-" + SafeName(f));
    assert r[|TempPrefix|..|r| - |SafeName(f)| - 1] == digits;
    DecimalRoundTrip(now);
    r
  }

  /** `path.join(os.tmpdir(), name)`: the temporary directory, a slash, and the temporary
      name, which holds no further slash. */
  function TempPath(tmpDir: string, now: nat, f: UploadedFile): (r: string)
    ensures |r| > |tmpDir| + 1
    ensures r[..|tmpDir|] == tmpDir && r[|tmpDir|] == '/'
    ensures r[|tmpDir| + 1..] == TempName(now, f)
    ensures '/' !in r[|tmpDir| + 1..]
  {
    TempNameIsOneSegment(now, f);
    var r := tmpDir + "/" + TempName(now, f);
    assert r[|tmpDir| + 1..] == TempName(now, f);
    r
  }

  /** The temporary name is a single path segment, so the file lands directly in the
      temporary directory, whatever the original name holds. */
  lemma TempNameIsOneSegment(now: nat, f: UploadedFile)
    ensures '/' !in TempName(now, f)
  {
    var digits := Decimal(now);
    var safe := SafeName(f);
    assert '/' !in digits by {
      forall i | 0 <= i < |digits| ensures digits[i] != '/' {
        assert IsDigit(digits[i]);
      }
    }
    assert '/' !in safe by {
      forall i | 0 <= i < |safe| ensures safe[i] != '/' {
        assert SafeChar(safe[i]);
      }
    }
    assert '/' !in TempPrefix;
  }

  /** Two uploads of the same file at different milliseconds use different paths. */
  lemma TempNamesDifferInTime(now1: nat, now2: nat, f: UploadedFile)
    requires TempName(now1, f) == TempName(now2, f)
    ensures now1 == now2
  {
    var tail := "-" + SafeName(f);
    SameMiddle(TempPrefix, Decimal(now1), Decimal(now2), tail);
    DecimalInjective(now1, now2);
  }

  /** What the `catch` throws for a write or parse failure `e`: a 400 naming the cause, or
      the TypeError of logging a nullish `e`. */
  function LoadFailure(e: Error): (r: Error)
    ensures !Nullish(e) ==> r == BadRequest(LoadFailedPrefix + Template(Message(e)))
    ensures !Nullish(e) ==> Status(r) == Some(BadRequestStatus) && IsPrefix(LoadFailedPrefix, r.text)
    ensures Nullish(e) ==> r == PropertyFault(e, "message")
  {
    AfterLoggingMessage(e, BadRequest(LoadFailedPrefix + Template(Message(e))))
  }

  /** How many removals a list of events holds. */
  function Unlinks(events: seq<Event>): nat {
    if events == [] then 0 else (if events[0].Unlink? then 1 else 0) + Unlinks(events[1..])
  }

  /** `loadFromFile`: `write`, `load` and `unlink` are what `fs.writeFile`, the loader and
      `fs.unlink` throw or yield; `now` is `Date.now()` and `tmpDir` is `os.tmpdir()`. */
  function LoadFromFile(file: Option<UploadedFile>, tmpDir: string, now: nat, write: Option<Error>,
                        load: Result<seq<Document>, Error>, unlink: Option<Error>): (r: LoadRun)
    // No bytes: rejected before anything else, nothing written.
    ensures file.None? || file.value.buffer.None? ==> r == LoadRun(Failure(BufferRequired), [])
    // Neither format: rejected, nothing written.
    ensures file.Some? && file.value.buffer.Some? && Classify(file.value).None? ==>
              r == LoadRun(Failure(UnsupportedFormat), [])
    // Otherwise the file is written first and removed last, exactly once.
    ensures r.events != [] <==> file.Some? && file.value.buffer.Some? && Classify(file.value).Some?
    ensures r.events != [] ==>
              var path := TempPath(tmpDir, now, file.value);
              && r.events[0] == WriteFile(path)
              && r.events[|r.events| - 1] == Unlink(path)
              && Unlinks(r.events) == 1
    // A failed write: the 400 naming the cause, and the removal anyway.
    ensures r.events != [] && write.Some? ==>
              var path := TempPath(tmpDir, now, file.value);
              r == LoadRun(Failure(LoadFailure(write.value)), [WriteFile(path), Unlink(path)])
    // A written file goes to the loader for its kind; its documents or its failure decide.
    ensures r.events != [] && write.None? ==>
              var path := TempPath(tmpDir, now, file.value);
              && r.events == [WriteFile(path), LoadWith(Classify(file.value).value, path), Unlink(path)]
              && (load.Success? ==> r.result == load)
              && (load.Failure? ==> r.result == Failure(LoadFailure(load.error)))
    // The documents returned are exactly the loader's.
    ensures r.result.Success? ==> write.None? && load == r.result
  {
    if file.None? || file.value.buffer.None? then LoadRun(Failure(BufferRequired), [])
    else
      var f := file.value;
      match Classify(f)
      case None => LoadRun(Failure(UnsupportedFormat), [])
      case Some(kind) =>
        var path := TempPath(tmpDir, now, f);
        var attempt := Attempt(kind, path, write, load);
        // `finally`: the removal is attempted and its own failure, `unlink`, swallowed.
        UnlinksAppend(attempt.events, [Unlink(path)]);
        LoadRun(attempt.result, attempt.events + [Unlink(path)])
  }

  /** The body of the `try`: write the bytes to `path`, then hand the file to the loader
      for `kind`; a failure of either becomes the 400 naming it. */
  function Attempt(kind: Kind, path: string, write: Option<Error>, load: Result<seq<Document>, Error>): (r: LoadRun)
    ensures write.Some? ==> r == LoadRun(Failure(LoadFailure(write.value)), [WriteFile(path)])
    ensures write.None? ==> r.events == [WriteFile(path), LoadWith(kind, path)]
    ensures write.None? && load.Success? ==> r.result == load
    ensures write.None? && load.Failure? ==> r.result == Failure(LoadFailure(load.error))
    ensures Unlinks(r.events) == 0
  {
    var run :=
      if write.Some? then LoadRun(Failure(LoadFailure(write.value)), [WriteFile(path)])
      else if load.Failure? then LoadRun(Failure(LoadFailure(load.error)), [WriteFile(path), LoadWith(kind, path)])
      else LoadRun(load, [WriteFile(path), LoadWith(kind, path)]);
    NoUnlinks(run.events);
    run
  }

  lemma {:induction false} UnlinksAppend(a: seq<Event>, b: seq<Event>)
    ensures Unlinks(a + b) == Unlinks(a) + Unlinks(b)
    decreases |a|
  {
    if a == [] {
      assert a + b == b;
    } else {
      assert (a + b)[0] == a[0];
      assert (a + b)[1..] == a[1..] + b;
      UnlinksAppend(a[1..], b);
    }
  }

  lemma {:induction false} NoUnlinks(events: seq<Event>)
    requires forall i :: 0 <= i < |events| ==> !events[i].Unlink?
    ensures Unlinks(events) == 0
    decreases |events|
  {
    if events != [] {
      NoUnlinks(events[1..]);
    }
  }

  /** A failure to remove the temporary file never reaches the caller. */
  lemma UnlinkFailureSwallowed(file: Option<UploadedFile>, tmpDir: string, now: nat, write: Option<Error>,
                               load: Result<seq<Document>, Error>, e: Error)
    ensures LoadFromFile(file, tmpDir, now, write, load, Some(e)) == LoadFromFile(file, tmpDir, now, write, load, None)
  {
  }

  /** A file declared `text/plain` loads as text even without an extension. */
  lemma PlainTextWithoutExtension(f: UploadedFile, name: string)
    requires f.mimetype == Some(TxtMime) && f.originalname == Some(name) && '.' !in name
    ensures Classify(f) == Some(Txt)
  {
    ExtNameWithoutDot(name);
    LowerKeepsLower(TxtMime);
  }

  /** The extension a name of the form stem.suffix is classified by. */
  lemma LowerExtOfName(f: UploadedFile, stem: string, suffix: string)
    requires f.originalname == Some(stem + "." + suffix)
    requires |stem| > 0 && '/' !in stem
    requires |suffix| > 0 && '/' !in suffix && '.' !in suffix
    requires forall i :: 0 <= i < |suffix| ==> !IsUpperAscii(suffix[i])
    ensures LowerExt(f) == "." + suffix
  {
    ExtNameOfStemAndSuffix(stem, suffix);
    var ext := "." + suffix;
    forall i | 0 <= i < |ext| ensures !IsUpperAscii(ext[i]) {
      if i > 0 {
        assert ext[i] == suffix[i - 1];
      }
    }
    LowerKeepsLower(ext);
  }

  /** A `.exe` file with no MIME type is rejected. */
  lemma ExecutableRejected(f: UploadedFile, stem: string)
    requires |stem| > 0 && '/' !in stem
    requires f.mimetype.None? && f.originalname == Some(stem + "." + "exe")
    ensures Classify(f) == None
  {
    LowerExtOfName(f, stem, "exe");
    assert LowerExt(f) == "." + "exe";
  }

  /** A `.pdf` name wins over a `text/plain` MIME type. */
  lemma PdfNameBeatsTextMime(f: UploadedFile, stem: string)
    requires |stem| > 0 && '/' !in stem
    requires f.mimetype == Some(TxtMime) && f.originalname == Some(stem + "." + "pdf")
    ensures Classify(f) == Some(Pdf)
  {
    LowerExtOfName(f, stem, "pdf");
    assert LowerExt(f) == PdfExt;
  }

  /** The extension is compared lower-cased, so a `.PDF` name with no MIME type is loaded
      as a PDF. */
  lemma UpperCasePdfAccepted(f: UploadedFile, stem: string)
    requires |stem| > 0 && '/' !in stem
    requires f.mimetype.None? && f.originalname == Some(stem + "." + "PDF")
    ensures Classify(f) == Some(Pdf)
  {
    var name := stem + "." + "PDF";
    assert OrEmpty(f.originalname) == name;
    ExtNameOfStemAndSuffix(stem, "PDF");
    LowerDottedPdf();
    assert LowerExt(f) == PdfExt;
  }

  lemma LowerDottedPdf()
    ensures ToLower("." + "PDF") == PdfExt
  {
    var lowered := ToLower("." + "PDF");
    assert lowered[1] == 'p' && lowered[2] == 'd' && lowered[3] == 'f';
  }

  /** Lower-casing leaves a string without capitals unchanged. */
  lemma LowerKeepsLower(s: string)
    requires forall i :: 0 <= i < |s| ==> !IsUpperAscii(s[i])
    ensures ToLower(s) == s
  {
  }

  /** The MIME type and the extension are compared without regard to case. */
  lemma ClassifyIgnoresCase(f: UploadedFile)
    ensures Classify(f) == Classify(f.(mimetype := Some(ToLower(OrEmpty(f.mimetype)))))
  {
    ToLowerIdempotent(OrEmpty(f.mimetype));
  }
}
