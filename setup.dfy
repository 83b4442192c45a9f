/**
 * The two validators of the setup script (app/setup.py): the check of the
 * environment before anything is provisioned, and the filtering of the JSON
 * documents to upload. The environment and the parsed files are inputs.
 */
module Setup {
  import opened Wrappers
  import opened Strings

  // ---------------------------------------------------------------------------
  // str.strip()
  // ---------------------------------------------------------------------------

  /** Python's `str.isspace()` for one character. */
  predicate IsSpace(c: char)
  {
    || c == ' '
    || ('\t' <= c <= '\r')
    || ('\U{1C}' <= c <= '\U{1F}')
    || c == '\U{85}' || c == '\U{A0}' || c == '\U{1680}'
    || ('\U{2000}' <= c <= '\U{200A}')
    || c == '\U{2028}' || c == '\U{2029}' || c == '\U{202F}' || c == '\U{205F}' || c == '\U{3000}'
  }

  /** Removes leading white space. */
  function StripLeft(s: string): (r: string)
    ensures |r| <= |s|
  {
    if s != [] && IsSpace(s[0]) then StripLeft(s[1..]) else s
  }

  /** Removes trailing white space. */
  function StripRight(s: string): (r: string)
    ensures |r| <= |s|
  {
    if s != [] && IsSpace(s[|s| - 1]) then StripRight(s[..|s| - 1]) else s
  }

  /** What `StripLeft` drops is white space, and what it keeps is a suffix starting with none. */
  lemma {:induction false} StripLeftSpec(s: string)
    ensures StripLeft(s) == s[|s| - |StripLeft(s)|..]
    ensures forall k :: 0 <= k < |s| - |StripLeft(s)| ==> IsSpace(s[k])
    ensures StripLeft(s) != [] ==> !IsSpace(StripLeft(s)[0])
  {
    if s != [] && IsSpace(s[0]) {
      StripLeftSpec(s[1..]);
      assert forall k :: 1 <= k < |s| - |StripLeft(s)| ==> s[k] == s[1..][k - 1];
    }
  }

  /** What `StripRight` drops is white space, and what it keeps is a prefix ending with none. */
  lemma {:induction false} StripRightSpec(s: string)
    ensures StripRight(s) == s[..|StripRight(s)|]
    ensures forall k :: |StripRight(s)| <= k < |s| ==> IsSpace(s[k])
    ensures StripRight(s) != [] ==> !IsSpace(StripRight(s)[|StripRight(s)| - 1])
  {
    if s != [] && IsSpace(s[|s| - 1]) {
      StripRightSpec(s[..|s| - 1]);
      assert forall k :: |StripRight(s)| <= k < |s| - 1 ==> s[k] == s[..|s| - 1][k];
    }
  }

  /** `s.strip()` */
  function Strip(s: string): string
  {
    StripRight(StripLeft(s))
  }

  /** Stripping leaves nothing exactly when the text is all white space. */
  lemma StripEmptyIff(s: string)
    ensures Strip(s) == "" <==> forall k :: 0 <= k < |s| ==> IsSpace(s[k])
  {
    var l := StripLeft(s);
    StripLeftSpec(s);
    StripRightSpec(l);
  }

  /** A stripped value is empty or starts and ends with something other than white space. */
  lemma StripTrims(s: string)
    ensures Strip(s) != "" ==> !IsSpace(Strip(s)[0]) && !IsSpace(Strip(s)[|Strip(s)| - 1])
  {
    var l := StripLeft(s);
    var r := StripRight(l);
    StripLeftSpec(s);
    StripRightSpec(l);
    if r != [] {
      assert r[0] == l[0];
    }
  }

  // ---------------------------------------------------------------------------
  // validate_configuration
  // ---------------------------------------------------------------------------

  /** The nine required variables with their descriptions, in declaration order. */
  const RequiredVars: seq<(string, string)> := [
    ("AZURE_OPENAI_ENDPOINT", "Azure OpenAI service endpoint"),
    ("AZURE_OPENAI_API_KEY", "Azure OpenAI API key"),
    ("EMBEDDING_DEPLOYMENT_NAME", "Azure OpenAI embedding deployment name"),
    ("EMBEDDING_MODEL_NAME", "Azure OpenAI embedding model name"),
    ("AZURE_SEARCH_ENDPOINT", "Azure AI Search service endpoint"),
    ("AZURE_SEARCH_API_KEY", "Azure AI Search API key"),
    ("AZURE_SEARCH_INDEX_NAME", "Azure AI Search index name"),
    ("AZURE_STORAGE_CONNECTION_STRING", "Azure Storage connection string"),
    ("AZURE_STORAGE_CONTAINER_NAME", "Azure Storage container name")
  ]

  // The two fixed lines of the message. They are written in pieces only for
  // the verifier, which then checks each piece for line breaks a few
  // characters at a time; the texts are the same as written whole.
  const MissingHeader: string := "Missing " + "required " + "environment" + " variables" + " in .env" + " file:"
  const UpdateHint: string := "Please " + "update your" + " .env file" + " at: "

  datatype ConfigurationError = ConfigurationError(message: string)

  /** `not value or value.strip() == ""` for `value = os.getenv(name)` */
  predicate IsMissing(env: map<string, string>, name: string)
  {
    name !in env || env[name] == "" || Strip(env[name]) == ""
  }

  function MissingLine(v: (string, string)): string
  {
    "  - " + v.0 + ": " + v.1
  }

  /** One line per missing variable, in the order the variables are declared. */
  function MissingLines(env: map<string, string>, vars: seq<(string, string)>): (lines: seq<string>)
    ensures |lines| <= |vars|
  {
    if vars == [] then []
    else
      var last := vars[|vars| - 1];
      MissingLines(env, vars[..|vars| - 1]) + (if IsMissing(env, last.0) then [MissingLine(last)] else [])
  }

  /** The list of missing lines is empty exactly when no variable is missing. */
  lemma {:induction false} MissingLinesEmptyIff(env: map<string, string>, vars: seq<(string, string)>)
    ensures MissingLines(env, vars) == [] <==> forall i :: 0 <= i < |vars| ==> !IsMissing(env, vars[i].0)
  {
    if vars != [] {
      MissingLinesEmptyIff(env, vars[..|vars| - 1]);
      assert forall i :: 0 <= i < |vars| - 1 ==> vars[..|vars| - 1][i] == vars[i];
    }
  }

  function ErrorMessage(lines: seq<string>, envFile: string): string
  {
    MissingHeader + "\n" + Join(lines, "\n") + "\n\n" + UpdateHint + envFile
  }

  predicate IsRequired(name: string)
  {
    exists i :: 0 <= i < |RequiredVars| && RequiredVars[i].0 == name
  }

  lemma MissingLinesStep(env: map<string, string>, vars: seq<(string, string)>, i: nat)
    requires i < |vars|
    ensures MissingLines(env, vars[..i + 1])
         == MissingLines(env, vars[..i]) + (if IsMissing(env, vars[i].0) then [MissingLine(vars[i])] else [])
  {
    assert vars[..i + 1][..i] == vars[..i];
  }

  /** The loop of `validate_configuration` over a list of (name, description) pairs. */
  method CheckVariables(env: map<string, string>, envFile: string, vars: seq<(string, string)>)
    returns (r: Result<map<string, string>, ConfigurationError>)
    ensures r.Failure? <==> exists i :: 0 <= i < |vars| && IsMissing(env, vars[i].0)
    ensures r.Failure? ==> r.error.message == ErrorMessage(MissingLines(env, vars), envFile)
    ensures r.Success? ==> forall k :: k in r.value <==> exists i :: 0 <= i < |vars| && vars[i].0 == k
    ensures r.Success? ==> forall k :: k in r.value ==> k in env && r.value[k] == Strip(env[k])
  {
    var config: map<string, string> := map[];
    var missing: seq<string> := [];
    for i := 0 to |vars|
      invariant missing == MissingLines(env, vars[..i])
      invariant forall j :: 0 <= j < i && !IsMissing(env, vars[j].0) ==> vars[j].0 in config
      invariant forall k :: k in config ==> exists j :: 0 <= j < i && vars[j].0 == k
      invariant forall k :: k in config ==> k in env && config[k] == Strip(env[k])
    {
      var (name, description) := vars[i];
      MissingLinesStep(env, vars, i);
      if IsMissing(env, name) {
        missing := missing + ["  - " + name + ": " + description];
      } else {
        config := config[name := Strip(env[name])];
      }
    }
    assert vars[..|vars|] == vars;
    MissingLinesEmptyIff(env, vars);
    if missing != [] {
      var message := MissingHeader + "\n" + Join(missing, "\n") + "\n\n" + UpdateHint + envFile;
      return Failure(ConfigurationError(message));
    }
    return Success(config);
  }

  /**
   * `validate_configuration`: an error exactly when some required variable is
   * unset, empty or white space only, listing those; otherwise exactly the
   * required variables, each with its value stripped.
   */
  method ValidateConfiguration(env: map<string, string>, envFile: string)
    returns (r: Result<map<string, string>, ConfigurationError>)
    ensures r.Failure? <==> exists i :: 0 <= i < |RequiredVars| && IsMissing(env, RequiredVars[i].0)
    ensures r.Failure? ==> r.error.message == ErrorMessage(MissingLines(env, RequiredVars), envFile)
    ensures r.Success? ==> forall k :: k in r.value <==> IsRequired(k)
    ensures r.Success? ==> forall k :: k in r.value ==> k in env && r.value[k] == Strip(env[k])
  {
    r := CheckVariables(env, envFile, RequiredVars);
  }

  /** A validated value is never empty and has no white space at either end. */
  lemma ValidatedValuesTrimmed(env: map<string, string>, k: string)
    requires !IsMissing(env, k)
    ensures Strip(env[k]) != ""
    ensures !IsSpace(Strip(env[k])[0]) && !IsSpace(Strip(env[k])[|Strip(env[k])| - 1])
  {
    StripTrims(env[k]);
  }

  /** Every missing line is one of the fixed lines, so none holds a line break. */
  lemma {:induction false} MissingLinesSingleLine(env: map<string, string>, vars: seq<(string, string)>)
    requires forall i :: 0 <= i < |vars| ==> '\n' !in vars[i].0 && '\n' !in vars[i].1
    ensures forall i :: 0 <= i < |MissingLines(env, vars)| ==> '\n' !in MissingLines(env, vars)[i]
  {
    if vars != [] {
      MissingLinesSingleLine(env, vars[..|vars| - 1]);
    }
  }

  /**
   * Read line by line, the error message is the header, one line per missing
   * variable in declaration order, a blank line and the hint naming the file.
   */
  lemma ErrorMessageLines(env: map<string, string>, vars: seq<(string, string)>, envFile: string)
    requires forall i :: 0 <= i < |vars| ==> '\n' !in vars[i].0 && '\n' !in vars[i].1
    requires '\n' !in envFile
    requires MissingLines(env, vars) != []
    ensures Split(ErrorMessage(MissingLines(env, vars), envFile), '\n')
         == [MissingHeader] + MissingLines(env, vars) + ["", UpdateHint + envFile]
  {
    var lines := MissingLines(env, vars);
    var last := UpdateHint + envFile;
    var all := [MissingHeader] + lines + ["", last];
    MissingLinesSingleLine(env, vars);
    FixedTextsSingleLine();
    JoinFramed(MissingHeader, lines, last);
    assert Join(all, "\n") == ErrorMessage(lines, envFile);
    forall i | 0 <= i < |all| ensures '\n' !in all[i] {
      if 0 < i <= |lines| {
        assert all[i] == lines[i - 1];
      }
    }
    SplitJoin(all, '\n');
  }

  /** The fixed parts of the message are single lines. */
  lemma FixedTextsSingleLine()
    ensures '\n' !in MissingHeader && '\n' !in UpdateHint
  {
    assert '\n' !in "Missing " && '\n' !in "required " && '\n' !in "environment";
    assert '\n' !in " variables" && '\n' !in " in .env" && '\n' !in " file:";
    assert '\n' !in "Please " && '\n' !in "update your" && '\n' !in " .env file" && '\n' !in " at: ";
  }

  /** The message layout is the header, the lines, an empty line and the hint, joined by newlines. */
  lemma JoinFramed(h: string, lines: seq<string>, t: string)
    requires lines != []
    ensures Join([h] + lines + ["", t], "\n") == h + "\n" + Join(lines, "\n") + "\n\n" + t
  {
    var nl := "\n";
    var j := Join(lines, nl);
    JoinConcat([h], lines, nl);
    JoinConcat([h] + lines, ["", t], nl);
    assert Join(["", t], nl) == "" + nl + t;
    assert nl + nl == "\n\n";
    calc {
      Join([h] + lines + ["", t], nl);
      h + nl + j + nl + ("" + nl + t);
      h + nl + j + (nl + nl) + t;
    }
  }

  // ---------------------------------------------------------------------------
  // load_documents
  // ---------------------------------------------------------------------------

  /** A parsed JSON value. */
  datatype Json =
    | JNull
    | JBool(b: bool)
    | JNumber(x: real)
    | JString(s: string)
    | JArray(items: seq<Json>)
    | JObject(fields: map<string, Json>)

  /** Python truthiness of a decoded JSON value. */
  predicate Truthy(j: Json)
  {
    match j
    case JNull => false
    case JBool(b) => b
    case JNumber(x) => x != 0.0
    case JString(s) => s != ""
    case JArray(items) => items != []
    case JObject(fields) => fields != map[]
  }

  const RequiredFields: seq<string> := ["headline", "content", "url", "authors", "publish_date"]

  /** What one JSON file yields: its parsed contents, or an error from `open` or `json.load`. */
  datatype FileInput = Parsed(data: Json) | Unreadable

  /** Raised by `in` on a number, boolean or null, and by indexing a list or string with a field name. */
  datatype TypeError = TypeError

  /** `s in t` for strings. */
  predicate Contains(t: string, s: string)
  {
    s <= t || (t != [] && Contains(t[1..], s))
  }

  /** `field not in doc or not doc[field]` */
  function FieldMissing(doc: Json, field: string): Result<bool, TypeError>
  {
    match doc
    case JObject(fields) => Success(field !in fields || !Truthy(fields[field]))
    case JArray(items) => if JString(field) in items then Failure(TypeError) else Success(true)
    case JString(s) => if Contains(s, field) then Failure(TypeError) else Success(true)
    case _ => Failure(TypeError)
  }

  /** `[field for field in fields if field not in doc or not doc[field]]` */
  function MissingFields(doc: Json, fields: seq<string>): Result<seq<string>, TypeError>
  {
    if fields == [] then Success([])
    else match FieldMissing(doc, fields[0])
      case Failure(e) => Failure(e)
      case Success(missing) =>
        match MissingFields(doc, fields[1..])
        case Failure(e) => Failure(e)
        case Success(rest) => Success((if missing then [fields[0]] else []) + rest)
  }

  /** `field in doc and doc[field]`, as `all` tests it. */
  function FieldPresent(doc: Json, field: string): Result<bool, TypeError>
  {
    match doc
    case JObject(fields) => Success(field in fields && Truthy(fields[field]))
    case JArray(items) => if JString(field) in items then Failure(TypeError) else Success(false)
    case JString(s) => if Contains(s, field) then Failure(TypeError) else Success(false)
    case _ => Failure(TypeError)
  }

  /** `all(field in doc and doc[field] for field in fields)`, which stops at the first false. */
  function AllPresent(doc: Json, fields: seq<string>): Result<bool, TypeError>
  {
    if fields == [] then Success(true)
    else match FieldPresent(doc, fields[0])
      case Failure(e) => Failure(e)
      case Success(present) => if present then AllPresent(doc, fields[1..]) else Success(false)
  }

  /** A document is valid when it is an object holding every required field with a truthy value. */
  predicate IsValidDocument(doc: Json)
  {
    doc.JObject? && forall i :: 0 <= i < |RequiredFields| ==>
      RequiredFields[i] in doc.fields && Truthy(doc.fields[RequiredFields[i]])
  }

  function FilterValid(docs: seq<Json>): (r: seq<Json>)
    ensures |r| <= |docs|
  {
    if docs == [] then []
    else FilterValid(docs[..|docs| - 1]) + (if IsValidDocument(docs[|docs| - 1]) then [docs[|docs| - 1]] else [])
  }

  /** `data if isinstance(data, list) else [data]` */
  function FileDocuments(data: Json): seq<Json>
  {
    if data.JArray? then data.items else [data]
  }

  /** The documents the loop over one file appends, and whether it was cut short by a raised error. */
  datatype Scan = Scan(kept: seq<Json>, failed: bool)

  function ScanDocuments(docs: seq<Json>): Scan
  {
    if docs == [] then Scan([], false)
    else
      var before := ScanDocuments(docs[..|docs| - 1]);
      var doc := docs[|docs| - 1];
      if before.failed then before
      else match MissingFields(doc, RequiredFields)
        case Failure(_) => Scan(before.kept, true)
        case Success(missing) => if missing == [] then Scan(before.kept + [doc], false) else before
  }

  /** The count printed at the end of a file: `len([doc for doc in docs if all(...)])`. */
  function CountValid(docs: seq<Json>): Result<nat, TypeError>
  {
    if docs == [] then Success(0)
    else match CountValid(docs[..|docs| - 1])
      case Failure(e) => Failure(e)
      case Success(n) =>
        match AllPresent(docs[|docs| - 1], RequiredFields)
        case Failure(e) => Failure(e)
        case Success(all) => Success(if all then n + 1 else n)
  }

  /** What a file reports: the count of loaded documents, or the error message. */
  datatype FileReport = Loaded(count: nat) | LoadError

  /** One file: the documents appended from it, and its report. */
  function LoadFile(f: FileInput): (seq<Json>, FileReport)
  {
    match f
    case Unreadable => ([], LoadError)
    case Parsed(data) =>
      var scan := ScanDocuments(FileDocuments(data));
      if scan.failed then (scan.kept, LoadError)
      else match CountValid(FileDocuments(data))
        case Failure(_) => (scan.kept, LoadError)
        case Success(n) => (scan.kept, Loaded(n))
  }

  function LoadAll(files: seq<FileInput>): seq<Json>
  {
    if files == [] then [] else LoadAll(files[..|files| - 1]) + LoadFile(files[|files| - 1]).0
  }

  /** A failed scan stays failed, with the same documents, whatever follows. */
  lemma {:induction false} ScanFailedStable(docs: seq<Json>, n: nat)
    requires n <= |docs| && ScanDocuments(docs[..n]).failed
    ensures ScanDocuments(docs) == ScanDocuments(docs[..n])
    decreases |docs| - n
  {
    if n < |docs| {
      assert docs[..|docs| - 1][..n] == docs[..n];
      ScanFailedStable(docs[..|docs| - 1], n);
    } else {
      assert docs[..n] == docs;
    }
  }

  /**
   * The loop over one file's documents: appends, in order, each document the
   * field check passes, and stops at the first document whose check raises.
   */
  method ScanFile(fileDocuments: seq<Json>) returns (kept: seq<Json>, failed: bool)
    ensures Scan(kept, failed) == ScanDocuments(fileDocuments)
  {
    kept, failed := [], false;
    var i := 0;
    while i < |fileDocuments| && !failed
      invariant 0 <= i <= |fileDocuments|
      invariant Scan(kept, failed) == ScanDocuments(fileDocuments[..i])
    {
      var doc := fileDocuments[i];
      assert fileDocuments[..i + 1][..i] == fileDocuments[..i];
      match MissingFields(doc, RequiredFields) {
        case Failure(_) =>
          failed := true;
        case Success(missing) =>
          if missing == [] {
            kept := kept + [doc];
          }
      }
      i := i + 1;
    }
    if failed {
      ScanFailedStable(fileDocuments, i);
    } else {
      assert fileDocuments[..i] == fileDocuments;
    }
  }

  /**
   * `load_documents`: for each file in turn, every document that passes the
   * field check is appended in order, and a report is produced for the file.
   */
  method LoadDocuments(files: seq<FileInput>) returns (documents: seq<Json>, reports: seq<FileReport>)
    ensures documents == LoadAll(files)
    ensures |reports| == |files|
    ensures forall i :: 0 <= i < |files| ==> reports[i] == LoadFile(files[i]).1
  {
    documents, reports := [], [];
    for f := 0 to |files|
      invariant documents == LoadAll(files[..f])
      invariant |reports| == f
      invariant forall i :: 0 <= i < f ==> reports[i] == LoadFile(files[i]).1
    {
      assert files[..f + 1][..f] == files[..f];
      var kept, report := LoadOne(files[f]);
      documents := documents + kept;
      reports := reports + [report];
    }
    assert files[..|files|] == files;
  }

  /** The body of the loop over files, for one file: what it appends and what it reports. */
  method LoadOne(f: FileInput) returns (kept: seq<Json>, report: FileReport)
    ensures (kept, report) == LoadFile(f)
  {
    match f {
      case Unreadable =>
        kept, report := [], LoadError;
      case Parsed(data) =>
        var fileDocuments := if data.JArray? then data.items else [data];
        var failed;
        kept, failed := ScanFile(fileDocuments);
        if failed {
          report := LoadError;
        } else {
          match CountValid(fileDocuments) {
            case Failure(_) =>
              report := LoadError;
            case Success(n) =>
              report := Loaded(n);
          }
        }
    }
  }

  /** The field check passes exactly for valid documents, and `all` then agrees with it. */
  lemma {:induction false} MissingFieldsAgree(doc: Json, fields: seq<string>)
    requires MissingFields(doc, fields).Success?
    ensures AllPresent(doc, fields) == Success(MissingFields(doc, fields).value == [])
    ensures MissingFields(doc, fields).value == [] <==>
      (fields == [] || doc.JObject?) &&
      forall i :: 0 <= i < |fields| ==> doc.JObject? && fields[i] in doc.fields && Truthy(doc.fields[fields[i]])
  {
    if fields != [] {
      MissingFieldsAgree(doc, fields[1..]);
      var rest := MissingFields(doc, fields[1..]).value;
      assert forall i :: 1 <= i < |fields| ==> fields[1..][i - 1] == fields[i];
    }
  }

  /**
   * Within one file, the documents kept are the valid ones, in their order,
   * up to the first document whose check raised; a file that raised nowhere
   * keeps exactly its valid documents.
   */
  lemma {:induction false} ScanKeepsValid(docs: seq<Json>)
    ensures !ScanDocuments(docs).failed ==> ScanDocuments(docs).kept == FilterValid(docs)
    ensures !ScanDocuments(docs).failed ==> forall i :: 0 <= i < |docs| ==> MissingFields(docs[i], RequiredFields).Success?
    ensures ScanDocuments(docs).failed ==>
      exists j :: (0 <= j < |docs| && MissingFields(docs[j], RequiredFields).Failure?
                   && ScanDocuments(docs).kept == FilterValid(docs[..j]))
  {
    if docs != [] {
      var init, doc := docs[..|docs| - 1], docs[|docs| - 1];
      assert docs == init + [doc];
      ScanKeepsValid(init);
      ScanStep(init, doc);
      if ScanDocuments(init).failed {
        var j :| 0 <= j < |init| && MissingFields(init[j], RequiredFields).Failure?
          && ScanDocuments(init).kept == FilterValid(init[..j]);
        assert docs[..j] == init[..j] && docs[j] == init[j];
      } else if MissingFields(doc, RequiredFields).Failure? {
        assert docs[..|init|] == init && docs[|init|] == doc;
      } else {
        MissingFieldsAgree(doc, RequiredFields);
        assert forall i :: 0 <= i < |init| ==> docs[i] == init[i];
      }
    }
  }

  /** Proof helper for `ScanKeepsValid`: one more document, for the scan and for the filter. */
  lemma ScanStep(init: seq<Json>, doc: Json)
    ensures ScanDocuments(init + [doc]) ==
      if ScanDocuments(init).failed then ScanDocuments(init)
      else match MissingFields(doc, RequiredFields)
        case Failure(_) => Scan(ScanDocuments(init).kept, true)
        case Success(missing) =>
          if missing == [] then Scan(ScanDocuments(init).kept + [doc], false) else ScanDocuments(init)
    ensures FilterValid(init + [doc]) == FilterValid(init) + (if IsValidDocument(doc) then [doc] else [])
  {
    assert (init + [doc])[..|init + [doc]| - 1] == init;
  }

  /** When a file raised nowhere, the count it reports is the number of documents appended from it. */
  lemma {:induction false} CountMatchesKept(docs: seq<Json>)
    requires !ScanDocuments(docs).failed
    ensures CountValid(docs) == Success(|ScanDocuments(docs).kept|)
  {
    if docs != [] {
      var init := docs[..|docs| - 1];
      var doc := docs[|docs| - 1];
      assert !ScanDocuments(init).failed;
      CountMatchesKept(init);
      MissingFieldsAgree(doc, RequiredFields);
    }
  }

  /** A file's report counts exactly the documents appended from it, unless it reports an error. */
  lemma ReportCountsAppended(f: FileInput)
    ensures LoadFile(f).1.Loaded? ==> LoadFile(f).1.count == |LoadFile(f).0|
    ensures f.Parsed? && !ScanDocuments(FileDocuments(f.data)).failed ==> LoadFile(f).1.Loaded?
  {
    if f.Parsed? && !ScanDocuments(FileDocuments(f.data)).failed {
      CountMatchesKept(FileDocuments(f.data));
    }
  }

  /**
   * A file whose top-level value is not a list is one document: an object is
   * kept and counted exactly when valid, and a number, boolean or null makes
   * the field check raise, so the file reports an error.
   */
  lemma SingleDocumentFile(data: Json)
    requires !data.JArray?
    ensures data.JObject? ==>
      LoadFile(Parsed(data)) == (if IsValidDocument(data) then ([data], Loaded(1)) else ([], Loaded(0)))
    ensures data.JNull? || data.JBool? || data.JNumber? ==> LoadFile(Parsed(data)) == ([], LoadError)
  {
    assert FileDocuments(data) == [data];
    assert [data][..0] == [];
    if data.JObject? {
      ObjectNeverRaises(data, RequiredFields);
      MissingFieldsAgree(data, RequiredFields);
      assert MissingFields(data, RequiredFields).value == [] <==> IsValidDocument(data);
      assert ScanDocuments([data]) == Scan(if IsValidDocument(data) then [data] else [], false);
      assert CountValid([data]) == Success(if IsValidDocument(data) then 1 else 0);
    } else if data.JNull? || data.JBool? || data.JNumber? {
      ScalarRaises(data);
      assert ScanDocuments([data]) == Scan([], true);
    }
  }

  /** The field check of a number, boolean or null raises on the first field. */
  lemma ScalarRaises(data: Json)
    requires data.JNull? || data.JBool? || data.JNumber?
    ensures MissingFields(data, RequiredFields).Failure?
  {
    assert FieldMissing(data, RequiredFields[0]).Failure?;
  }

  /** The field check of an object never raises. */
  lemma {:induction false} ObjectNeverRaises(doc: Json, fields: seq<string>)
    requires doc.JObject?
    ensures MissingFields(doc, fields).Success?
  {
    if fields != [] {
      ObjectNeverRaises(doc, fields[1..]);
    }
  }
}
