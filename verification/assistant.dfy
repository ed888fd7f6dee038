/** The handlers of `src/api/assistant.py`. The remote assistants service is not called: what it
    returns (the assistant listing, run states, messages, file names) is an input, and what the handler
    asks of it is part of the output. */
module Assistant {
  import opened Wrappers
  import opened Json
  import opened Errors
  import opened Responses
  import Text
  import Lists

  // ---------------------------------------------------------------------------------------------
  // Upload file names
  // ---------------------------------------------------------------------------------------------

  /** The extensions an uploaded file may have, in lower case. */
  const ALLOWED_EXTENSIONS: set<string> := {"pdf"}

  /** `allowed_file(f)`: `f` contains a dot, and the text after its last dot, lower-cased, is an allowed extension. */
  function AllowedFile(filename: string): bool {
    var dot := Text.RFind(filename, '.');
    dot >= 0 && Text.Lower(filename[dot + 1..]) in ALLOWED_EXTENSIONS
  }

  /** A name is allowed exactly when it ends in a dot and three characters that lower-case to `pdf`. */
  lemma AllowedFileIff(filename: string)
    ensures AllowedFile(filename) <==>
              |filename| >= 4 && filename[|filename| - 4] == '.' && Text.Lower(filename[|filename| - 3..]) == "pdf"
  {
    var n := |filename|;
    var dot := Text.RFind(filename, '.');
    if AllowedFile(filename) {
      assert |Text.Lower(filename[dot + 1..])| == 3;
      assert dot == n - 4;
      assert filename[dot + 1..] == filename[n - 3..];
    }
    if n >= 4 && filename[n - 4] == '.' && Text.Lower(filename[n - 3..]) == "pdf" {
      var tail := filename[n - 3..];
      forall k | n - 3 <= k < n
        ensures filename[k] != '.'
      {
        assert Text.Lower(tail)[k - (n - 3)] == Text.LowerChar(filename[k]);
        assert "pdf"[k - (n - 3)] != '.';
      }
      assert dot == n - 4;
    }
  }

  // ---------------------------------------------------------------------------------------------
  // Assistants
  // ---------------------------------------------------------------------------------------------

  /** An assistant as the remote listing reports it: its id, its name (which may be null) and the
      dictionary `to_dict()` returns. */
  datatype Assistant = Assistant(id: string, name: Json, info: JsonObject)

  /** `get_assistant_instance(name)`: the first listed assistant whose name equals `name`. */
  function GetAssistantInstance(assistants: seq<Assistant>, name: Json): (r: Option<Assistant>)
    ensures r.Some? ==> r.value.name == name && r.value in assistants
    ensures r.Some? ==> exists i :: 0 <= i < |assistants| && assistants[i] == r.value
                                    && forall k :: 0 <= k < i ==> assistants[k].name != name
    ensures r.None? <==> forall k :: 0 <= k < |assistants| ==> assistants[k].name != name
  {
    match Lists.FirstIndex(assistants, (a: Assistant) => a.name == name)
    case None => None
    case Some(i) => Some(assistants[i])
  }

  /** The names of the listed assistants, in listing order. */
  function Names(assistants: seq<Assistant>): (names: seq<Json>)
    ensures |names| == |assistants|
    ensures forall k :: 0 <= k < |assistants| ==> names[k] == assistants[k].name
  {
    seq(|assistants|, k requires 0 <= k < |assistants| => assistants[k].name)
  }

  /** GET /assistants: every listed name, in order. */
  function GetAssistants(assistants: seq<Assistant>): (r: Response)
    ensures r.Reply? && r.status == 200 && r.body.Keys == {"assistants"}
    ensures r.body["assistants"] == JList(Names(assistants))
  {
    Reply(map["assistants" := JList(Names(assistants))], 200)
  }

  /** GET /assistant/<name>: the first assistant of that name, or `assistant_not_found`. */
  function GetAssistantInfo(assistants: seq<Assistant>, name: string): (r: Response)
    ensures GetAssistantInstance(assistants, JStr(name)).None? ==> IsError(r, 400, "assistant_not_found")
    ensures GetAssistantInstance(assistants, JStr(name)).Some? ==>
              r == Reply(map["assistant" := JObj(GetAssistantInstance(assistants, JStr(name)).value.info)], 200)
  {
    match GetAssistantInstance(assistants, JStr(name))
    case None => CatalogError(AiErrors, ASSISTANT_NOT_FOUND)
    case Some(a) => Reply(map["assistant" := JObj(a.info)], 200)
  }

  /** A newly named assistant is found by the lookup once it is listed, even behind others. */
  lemma ListedAssistantIsFound(assistants: seq<Assistant>, a: Assistant)
    requires forall k :: 0 <= k < |assistants| ==> assistants[k].name != a.name
    ensures GetAssistantInstance(assistants + [a], a.name) == Some(a)
  {
    var all := assistants + [a];
    assert all[|assistants|] == a;
  }

  /** What POST /create-assistant asks the service to create. */
  datatype NewAssistant = NewAssistant(model: string, description: Json, instructions: Json, tools: seq<string>, name: Json)

  const ASSISTANT_MODEL := "gpt-4o-mini"

  /** The response of POST /create-assistant and the creation it requested, if any. */
  datatype CreateOutcome = CreateOutcome(response: Response, created: Option<NewAssistant>)

  /** POST /create-assistant: a name not yet listed is created with the file-search tool; a listed name is refused. */
  function CreateAssistant(assistants: seq<Assistant>, body: JsonObject): (r: CreateOutcome)
    ensures r.created.Some? <==> Get(body, "name") !in Names(assistants)
    ensures r.created.Some? ==>
              && r.created.value == NewAssistant(ASSISTANT_MODEL, Get(body, "description"), Get(body, "instructions"),
                                                 ["file_search"], Get(body, "name"))
              && r.response == Reply(map["message" := JStr("Assistant created successfully.")], 201)
    ensures r.created.None? ==> r.response == Reply(map["message" := JStr("Assistant already exists.")], 400)
  {
    var name := Get(body, "name");
    if name !in Names(assistants) then
      CreateOutcome(Reply(map["message" := JStr("Assistant created successfully.")], 201),
                    Some(NewAssistant(ASSISTANT_MODEL, Get(body, "description"), Get(body, "instructions"),
                                      ["file_search"], name)))
    else
      CreateOutcome(Reply(map["message" := JStr("Assistant already exists.")], 400), None)
  }

  /** Creating the same name twice: once the first creation is listed, the second request is refused. */
  lemma CreateTwiceRefused(assistants: seq<Assistant>, body: JsonObject, id: string, info: JsonObject)
    requires CreateAssistant(assistants, body).created.Some?
    ensures var listed := assistants + [Assistant(id, Get(body, "name"), info)];
            CreateAssistant(listed, body).created.None?
            && CreateAssistant(listed, body).response.status == 400
  {
    var listed := assistants + [Assistant(id, Get(body, "name"), info)];
    assert Names(listed)[|assistants|] == Get(body, "name");
  }

  // ---------------------------------------------------------------------------------------------
  // PDF upload
  // ---------------------------------------------------------------------------------------------

  /** The `file` part of the form: absent, or present with the client's file name (possibly none). */
  datatype FilePart = NoFilePart | FilePart(filename: Option<string>)

  /** A file part is truthy when it carries a non-empty file name. */
  predicate FileTruthy(f: FilePart) {
    f.FilePart? && f.filename.Some? && f.filename.value != ""
  }

  /** A file stored for an assistant: the folder named after it, the sanitised file name, and the
      assistant whose file-search tool is pointed at the new vector store. */
  datatype StoredFile = StoredFile(folder: string, filename: string, assistantId: string)

  /** The response of POST /add-pdf and the file it stored, if any. */
  datatype UploadOutcome = UploadOutcome(response: Response, stored: Option<StoredFile>)

  /** Every check of POST /add-pdf before anything is stored passes. */
  predicate UploadAccepted(assistants: seq<Assistant>, assistantName: Json, file: FilePart) {
    && GetAssistantInstance(assistants, assistantName).Some?
    && FileTruthy(file)
    && AllowedFile(file.filename.value)
  }

  /** POST /add-pdf. The checks run in order: the assistant exists, the file part is present, it is
      truthy, its name is not empty, its extension is allowed; each failure is a 400 and stores nothing.
      `secure` is `secure_filename`. A null assistant name that still matches a listed assistant cannot
      be joined onto the upload folder, and the handler raises. */
  function AddPdf(assistants: seq<Assistant>, assistantName: Json, file: FilePart, secure: string -> string): (r: UploadOutcome)
    ensures r.stored.Some? <==> UploadAccepted(assistants, assistantName, file) && assistantName.JStr?
    ensures GetAssistantInstance(assistants, assistantName).None? ==> IsError(r.response, 400, "assistant_not_found")
    ensures GetAssistantInstance(assistants, assistantName).Some? && !FileTruthy(file) ==>
              IsError(r.response, 400, "file_not_found")
    ensures GetAssistantInstance(assistants, assistantName).Some? && FileTruthy(file) && !AllowedFile(file.filename.value) ==>
              IsError(r.response, 400, "filename_not_allowed")
    ensures UploadAccepted(assistants, assistantName, file) && !assistantName.JStr? ==> r.response == Abort(500)
    ensures r.stored.Some? ==>
              && r.stored.value == StoredFile(assistantName.s, secure(file.filename.value),
                                              GetAssistantInstance(assistants, assistantName).value.id)
              && r.response == Reply(map["message" := JStr("File uploaded successfully.")], 201)
  {
    match GetAssistantInstance(assistants, assistantName)
    case None => UploadOutcome(CatalogError(AiErrors, ASSISTANT_NOT_FOUND), None)
    case Some(a) =>
      if file.NoFilePart? then UploadOutcome(CatalogError(AiErrors, FILE_NOT_FOUND), None)
      else if !FileTruthy(file) then UploadOutcome(CatalogError(AiErrors, FILE_NOT_FOUND), None)
      else if file.filename.value == "" then UploadOutcome(CatalogError(AiErrors, FILE_NOT_FOUND), None)
      else if !AllowedFile(file.filename.value) then UploadOutcome(CatalogError(AiErrors, FILENAME_NOT_ALLOWED), None)
      else if !assistantName.JStr? then UploadOutcome(Abort(500), None)  // joining a null folder name raises
      else
        UploadOutcome(Reply(map["message" := JStr("File uploaded successfully.")], 201),
                      Some(StoredFile(assistantName.s, secure(file.filename.value), a.id)))
  }

  // ---------------------------------------------------------------------------------------------
  // Footnotes and citations
  // ---------------------------------------------------------------------------------------------

  /** An annotation of the answer text: the span it marks and, for a file citation, the cited file's id. */
  datatype Annotation = Annotation(text: string, fileCitation: Option<string>)

  /** The footnote that replaces annotation `i`'s text: `f' [{i}]'`. */
  function Marker(i: nat): string {
    " [" + Text.Decimal(i) + "]"
  }

  /** The citation line of annotation `i` citing file `filename`: `f"[{i}] from {filename}"`. */
  function CitationLine(i: nat, filename: string): string {
    "[" + Text.Decimal(i) + "] from " + filename
  }

  /** The answer text after footnoting the first `n` annotations, in order: annotation `i` replaces every
      occurrence of its text in the text as the earlier annotations left it. */
  function Footnoted(value: string, annotations: seq<Annotation>, n: nat): string
    requires n <= |annotations|
  {
    if n == 0 then value
    else Text.ReplaceAll(Footnoted(value, annotations, n - 1), annotations[n - 1].text, Marker(n - 1))
  }

  /** An annotation whose text no longer occurs leaves the footnoted text as it was. */
  lemma FootnoteOfAbsentText(value: string, annotations: seq<Annotation>, n: nat)
    requires n < |annotations| && annotations[n].text != []
    requires forall i: nat :: !Text.OccursAt(Footnoted(value, annotations, n), annotations[n].text, i)
    ensures Footnoted(value, annotations, n + 1) == Footnoted(value, annotations, n)
  {
    Text.ReplaceAbsent(Footnoted(value, annotations, n), annotations[n].text, Marker(n));
  }

  /** Replacement is sequential, so a later annotation whose text occurs in an earlier marker rewrites
      that marker: here annotation 1, with text `0`, rewrites the footnote ` [0]` of annotation 0. */
  lemma LaterAnnotationRewritesMarker()
    ensures Footnoted("x ab", [Annotation("ab", None), Annotation("0", None)], 2) == "x  [ [1]]"
  {
    var anns := [Annotation("ab", None), Annotation("0", None)];
    FirstFootnote();
    assert Footnoted("x ab", anns, 1) == "x  [0]";
    SecondFootnote();
  }

  lemma FirstFootnote()
    ensures Text.ReplaceAll("x ab", "ab", Marker(0)) == "x  [0]"
  {
    assert Text.Decimal(0) == "0";
    assert Marker(0) == " [0]";
    assert Text.ReplaceAll("", "ab", " [0]") == "";
    assert Text.ReplaceAll("ab", "ab", " [0]") == " [0]" + Text.ReplaceAll("", "ab", " [0]");
    assert Text.ReplaceAll(" ab", "ab", " [0]") == [' '] + Text.ReplaceAll("ab", "ab", " [0]");
    assert Text.ReplaceAll("x ab", "ab", " [0]") == ['x'] + Text.ReplaceAll(" ab", "ab", " [0]");
  }

  lemma SecondFootnote()
    ensures Text.ReplaceAll("x  [0]", "0", Marker(1)) == "x  [ [1]]"
  {
    assert Text.Decimal(1) == "1";
    var m := " [1]";
    assert Marker(1) == m;
    assert Text.ReplaceAll("", "0", m) == "";
    assert Text.ReplaceAll("]", "0", m) == "]";
    assert Text.ReplaceAll("0]", "0", m) == m + "]";
    assert Text.ReplaceAll("[0]", "0", m) == "[" + m + "]";
    assert Text.ReplaceAll(" [0]", "0", m) == " [" + m + "]";
    assert Text.ReplaceAll("  [0]", "0", m) == "  [" + m + "]";
    assert Text.ReplaceAll("x  [0]", "0", m) == "x  [" + m + "]";
  }

  /** The indices among the first `n` annotations that cite a file, in increasing order. */
  function CitedIndices(annotations: seq<Annotation>, n: nat): (r: seq<nat>)
    requires n <= |annotations|
    ensures forall k :: 0 <= k < |r| ==> r[k] < n && annotations[r[k]].fileCitation.Some?
    ensures forall k, l :: 0 <= k < l < |r| ==> r[k] < r[l]
    ensures forall i :: 0 <= i < n ==> (i in r <==> annotations[i].fileCitation.Some?)
  {
    if n == 0 then []
    else CitedIndices(annotations, n - 1) + (if annotations[n - 1].fileCitation.Some? then [n - 1] else [])
  }

  /** Every cited file among the first `n` annotations is known to the file service. */
  predicate CitedFilesKnown(annotations: seq<Annotation>, files: map<string, string>, n: nat)
    requires n <= |annotations|
  {
    forall i :: 0 <= i < n && annotations[i].fileCitation.Some? ==> annotations[i].fileCitation.value in files
  }

  /** The citation list after the first `n` annotations; `None` once a cited file is unknown, where the
      file lookup raises. Line `k` cites the `k`-th citing annotation, numbered by its annotation index. */
  function Citations(annotations: seq<Annotation>, files: map<string, string>, n: nat): (r: Option<seq<string>>)
    requires n <= |annotations|
    ensures r.Some? <==> CitedFilesKnown(annotations, files, n)
    ensures r.Some? ==>
              var cited := CitedIndices(annotations, n);
              && |r.value| == |cited|
              && forall k :: 0 <= k < |cited| ==>
                   r.value[k] == CitationLine(cited[k], files[annotations[cited[k]].fileCitation.value])
  {
    if n == 0 then Some([])
    else
      match Citations(annotations, files, n - 1)
      case None => None
      case Some(lines) =>
        var a := annotations[n - 1];
        if a.fileCitation.None? then Some(lines)
        else if a.fileCitation.value in files then Some(lines + [CitationLine(n - 1, files[a.fileCitation.value])])
        else None
  }

  /** The file ids the handler looks up while citing, in order, up to and including the first unknown one. */
  function FileLookups(annotations: seq<Annotation>, files: map<string, string>, n: nat): (ids: seq<string>)
    requires n <= |annotations|
    ensures |ids| <= n
    ensures Citations(annotations, files, n).Some? ==>
              var cited := CitedIndices(annotations, n);
              && |ids| == |cited|
              && forall k :: 0 <= k < |ids| ==> ids[k] == annotations[cited[k]].fileCitation.value
    ensures Citations(annotations, files, n).None? ==>
              && ids != [] && ids[|ids| - 1] !in files
              && forall k :: 0 <= k < |ids| - 1 ==> ids[k] in files
  {
    if n == 0 then []
    else
      var earlier := FileLookups(annotations, files, n - 1);
      var a := annotations[n - 1];
      if Citations(annotations, files, n - 1).None? || a.fileCitation.None? then earlier
      else earlier + [a.fileCitation.value]
  }

  /** The footnoting loop of `ask`, annotation by annotation: each text is replaced by its marker, and
      each file citation is looked up and listed. It stops at the first unknown file. */
  method Annotate(value: string, annotations: seq<Annotation>, files: map<string, string>)
    returns (text: string, citations: Option<seq<string>>)
    ensures citations == Citations(annotations, files, |annotations|)
    ensures citations.Some? ==> text == Footnoted(value, annotations, |annotations|)
  {
    text := value;
    var lines: seq<string> := [];
    var index := 0;
    while index < |annotations|
      invariant 0 <= index <= |annotations|
      invariant text == Footnoted(value, annotations, index)
      invariant Citations(annotations, files, index) == Some(lines)
    {
      var annotation := annotations[index];
      text := Text.ReplaceAll(text, annotation.text, Marker(index));
      if annotation.fileCitation.Some? {
        if annotation.fileCitation.value !in files {
          return text, None;
        }
        lines := lines + [CitationLine(index, files[annotation.fileCitation.value])];
      }
      index := index + 1;
    }
    citations := Some(lines);
  }

  /** Numbering follows annotation indices, so it skips annotations that cite nothing. */
  lemma CitationNumbersSkip()
    ensures Citations([Annotation("a", None), Annotation("b", Some("file-1"))], map["file-1" := "A.pdf"], 2)
              == Some(["[1] from A.pdf"])
  {
    var anns := [Annotation("a", None), Annotation("b", Some("file-1"))];
    var files := map["file-1" := "A.pdf"];
    assert Citations(anns, files, 1) == Some([]);
    assert Text.Decimal(1) == "1";
    assert CitationLine(1, "A.pdf") == "[1] from A.pdf";
    assert Citations(anns, files, 2) == Some([] + [CitationLine(1, "A.pdf")]);
    assert [] + [CitationLine(1, "A.pdf")] == ["[1] from A.pdf"];
  }

  // ---------------------------------------------------------------------------------------------
  // Asking a question
  // ---------------------------------------------------------------------------------------------

  /** The error a failed run reports. */
  datatype RunError = RunError(code: string, message: string)

  /** A run as the service reports it: its status and, once failed, its error (which may be missing). */
  datatype Run = Run(status: string, lastError: Option<RunError>)

  /** A block of message content: text with its annotations, or anything else (an image, say). */
  datatype Content = TextContent(value: string, annotations: seq<Annotation>) | OtherContent

  datatype Message = Message(content: seq<Content>)

  /** What the remote service answers during one `ask`: the assistant listing, the run as polled to an
      end, the run as fetched again after a failure, the thread's messages (newest first) and the names
      of the files it knows, by id. */
  datatype Service = Service(assistants: seq<Assistant>, polled: Run, refetched: Run, messages: seq<Message>,
                             files: map<string, string>)

  /** A request the handler makes of the remote service. */
  datatype RemoteCall =
    | CreateThread
    | CreateMessage(content: Json)
    | ListAssistants
    | CreateAndPoll(assistantId: string, timeout: nat)
    | RetrieveRun
    | ListMessages
    | RetrieveFile(fileId: string)

  /** What `ask` did: its response, the remote requests it made in order, and the failure detail it logged. */
  datatype AskOutcome = AskOutcome(response: Response, calls: seq<RemoteCall>, logged: Option<string>)

  /** `timeout=60`: the per-request timeout, in seconds, passed with the run's requests. */
  const RUN_TIMEOUT := 60

  /** The run whose status decides the outcome: a failed run is fetched again, and the fresh copy counts. */
  function DecidingRun(svc: Service): Run {
    if svc.polled.status == "failed" then svc.refetched else svc.polled
  }

  /** Reading the error of a failed run raises when the fresh copy carries none. */
  predicate FailureUnreadable(svc: Service) {
    svc.polled.status == "failed" && svc.refetched.lastError.None?
  }

  /** The answer can be read: the deciding run completed, and the newest message starts with text. */
  predicate AnswerReadable(svc: Service) {
    && DecidingRun(svc).status == "completed"
    && svc.messages != [] && svc.messages[0].content != [] && svc.messages[0].content[0].TextContent?
  }

  /** The response of the `except` branch: any exception becomes `unhandled_exception` with status 500. */
  function Unhandled(): (r: Response)
    ensures IsError(r, 500, "unhandled_exception")
  {
    CatalogError(AiErrors, UNHANDLED_EXCEPTION, 500)
  }

  /** One file lookup per id, in order. */
  function RetrieveFiles(ids: seq<string>): (calls: seq<RemoteCall>)
    ensures |calls| == |ids| && forall k :: 0 <= k < |ids| ==> calls[k] == RetrieveFile(ids[k])
  {
    seq(|ids|, k requires 0 <= k < |ids| => RetrieveFile(ids[k]))
  }

  /** Each citation line as a JSON string. */
  function JsonStrings(lines: seq<string>): (items: seq<Json>)
    ensures |items| == |lines| && forall k :: 0 <= k < |lines| ==> items[k] == JStr(lines[k])
  {
    seq(|lines|, k requires 0 <= k < |lines| => JStr(lines[k]))
  }

  /** The response to a run that did not complete. */
  function RunFailed(): (r: Response)
    ensures IsError(r, 500, "client_run_fail")
  {
    CatalogError(AiErrors, CLIENT_RUN_FAIL, 500)
  }

  /** The end of `ask` once the answer's text block is in hand: footnote it, look up each cited file,
      and return the text with its citations; an unknown file id raises. */
  function Answer(block: Content, files: map<string, string>): (r: (Response, seq<RemoteCall>))
    requires block.TextContent?
    ensures r.1 == RetrieveFiles(FileLookups(block.annotations, files, |block.annotations|))
    ensures r.0.Reply?
    ensures r.0.status == 200 <==> CitedFilesKnown(block.annotations, files, |block.annotations|)
    ensures r.0.status != 200 ==> IsError(r.0, 500, "unhandled_exception")
    ensures r.0.status == 200 ==>
              && r.0.body.Keys == {"response", "citations"}
              && r.0.body["response"] == JStr(Footnoted(block.value, block.annotations, |block.annotations|))
              && r.0.body["citations"] == JList(JsonStrings(Citations(block.annotations, files, |block.annotations|).value))
  {
    var n := |block.annotations|;
    var lookups := RetrieveFiles(FileLookups(block.annotations, files, n));
    match Citations(block.annotations, files, n)
    case None => (Unhandled(), lookups)  // an unknown file id
    case Some(lines) =>
      (Reply(map["response" := JStr(Footnoted(block.value, block.annotations, n)),
                  "citations" := JList(JsonStrings(lines))], 200), lookups)
  }

  /** The newest message's first block, once the answer is readable. */
  function Newest(svc: Service): Content
    requires AnswerReadable(svc)
  {
    svc.messages[0].content[0]
  }

  /** `ask` once the deciding run has completed: fetch the messages and answer from the newest one's
      first block; a missing message, block or text raises. `calls` holds the requests made so far. */
  function ReadAnswer(svc: Service, calls: seq<RemoteCall>, logged: Option<string>): (r: AskOutcome)
    requires DecidingRun(svc).status == "completed"
    ensures r.logged == logged
    ensures |r.calls| > |calls| && r.calls[..|calls|] == calls && r.calls[|calls|] == ListMessages
    ensures r.response.Reply?
    ensures r.response.status == 200 <==>
              AnswerReadable(svc) && CitedFilesKnown(Newest(svc).annotations, svc.files, |Newest(svc).annotations|)
    ensures r.response.status != 200 ==> IsError(r.response, 500, "unhandled_exception")
    ensures r.response.status == 200 ==>
              && r.response == Answer(Newest(svc), svc.files).0
              && r.calls == calls + [ListMessages] + Answer(Newest(svc), svc.files).1
  {
    if !AnswerReadable(svc) then
      AskOutcome(Unhandled(), calls + [ListMessages], logged)  // no message, no content, or no text
    else
      var (response, lookups) := Answer(Newest(svc), svc.files);
      var all := calls + [ListMessages] + lookups;
      assert all[..|calls|] == calls;
      AskOutcome(response, all, logged)
  }

  /** `ask` after the assistant is found and its run polled: read a failure's detail, check the status,
      fetch the messages and answer from the newest. `opening` holds the requests made so far. */
  function AfterRun(svc: Service, opening: seq<RemoteCall>): (r: AskOutcome)
    ensures |r.calls| >= |opening| && r.calls[..|opening|] == opening
    ensures r.response.Reply?
    ensures r.logged.Some? <==> svc.polled.status == "failed" && svc.refetched.lastError.Some?
    ensures r.logged.Some? ==> r.logged.value == svc.refetched.lastError.value.code + " - " + svc.refetched.lastError.value.message
    ensures FailureUnreadable(svc) ==> IsError(r.response, 500, "unhandled_exception")
    ensures !FailureUnreadable(svc) && DecidingRun(svc).status != "completed" ==> IsError(r.response, 500, "client_run_fail")
    ensures r.response.status == 200 <==>
              && !FailureUnreadable(svc) && AnswerReadable(svc)
              && CitedFilesKnown(Newest(svc).annotations, svc.files, |Newest(svc).annotations|)
    ensures r.response.status == 200 ==> r.response == Answer(Newest(svc), svc.files).0
    ensures r.response.status == 200 ==>
              r.calls == (if svc.polled.status == "failed" then opening + [RetrieveRun] else opening)
                         + [ListMessages] + Answer(Newest(svc), svc.files).1
  {
    if FailureUnreadable(svc) then
      AskOutcome(Unhandled(), opening + [RetrieveRun], None)  // `.code` of a missing error
    else
      var failed := svc.polled.status == "failed";
      var calls := if failed then opening + [RetrieveRun] else opening;
      var logged := if failed then Some(svc.refetched.lastError.value.code + " - " + svc.refetched.lastError.value.message)
                    else None;
      assert calls[..|opening|] == opening;
      if DecidingRun(svc).status != "completed" then
        AskOutcome(RunFailed(), calls, logged)
      else
        var r := ReadAnswer(svc, calls, logged);
        assert r.calls[..|opening|] == calls[..|opening|];
        r
  }

  /** POST /ask. A thread is opened and the question posted before the assistant is looked up; an
      unknown name then fails on the missing id, inside the `try`, as `unhandled_exception`. A run that
      does not complete is `client_run_fail`, with a failure's detail written to the log only. */
  function Ask(body: JsonObject, svc: Service): (r: AskOutcome)
    ensures |r.calls| >= 3 && r.calls[..3] == Opening(body)
    ensures GetAssistantInstance(svc.assistants, Get(body, "assistant_name")).None? ==>
              IsError(r.response, 500, "unhandled_exception") && r.calls == Opening(body) && r.logged.None?
    ensures GetAssistantInstance(svc.assistants, Get(body, "assistant_name")).Some? ==>
              r == AfterRun(svc, Opening(body) + [CreateAndPoll(GetAssistantInstance(svc.assistants, Get(body, "assistant_name")).value.id, RUN_TIMEOUT)])
  {
    var opening := Opening(body);
    match GetAssistantInstance(svc.assistants, Get(body, "assistant_name"))
    case None => AskOutcome(Unhandled(), opening, None)  // `.id` of None
    case Some(a) =>
      var polling := opening + [CreateAndPoll(a.id, RUN_TIMEOUT)];
      var r := AfterRun(svc, polling);
      assert r.calls[..3] == opening by {
        assert polling[..3] == opening;
        assert r.calls[..3] == polling[..3];
      }
      r
  }

  /** The requests `ask` makes before it looks the assistant up: open a thread, post the question, list
      the assistants. */
  function Opening(body: JsonObject): seq<RemoteCall> {
    [CreateThread, CreateMessage(Get(body, "question")), ListAssistants]
  }

  /** The failure detail of a run reaches only the log: the response does not depend on it. */
  lemma FailureDetailNotReturned(body: JsonObject, svc: Service, e1: RunError, e2: RunError)
    requires svc.polled.status == "failed"
    ensures Ask(body, svc.(refetched := svc.refetched.(lastError := Some(e1)))).response
            == Ask(body, svc.(refetched := svc.refetched.(lastError := Some(e2)))).response
  {
  }

  /** A question to an assistant that is not listed opens a thread and posts the question, and then
      fails as an unhandled exception rather than as `assistant_not_found`. */
  lemma UnknownAssistantAfterThreadCreated(body: JsonObject, svc: Service)
    requires forall k :: 0 <= k < |svc.assistants| ==> svc.assistants[k].name != Get(body, "assistant_name")
    ensures Ask(body, svc).calls == [CreateThread, CreateMessage(Get(body, "question")), ListAssistants]
    ensures IsError(Ask(body, svc).response, 500, "unhandled_exception")
    ensures Ask(body, svc).response.body["error"] != JStr("assistant_not_found")
  {
  }
}
