/**
 The `nl2sql` request handler of the chat backend as a state machine:
 Received -> Translated -> Validated -> Executed -> Responded, with an
 early exit to Responded from each of the first three stages.

 The language model and the database are parameters: `model` maps the
 question to the model's outcome, `db` maps a SQL statement to the outcome
 of running it, and `audit` is the outcome of the write to the QUERY table.
 The SQL gate is a parameter too, so that the machine can be run with the
 backend's gate (`Nl2Sql`) or with another one. The trace records what was
 consulted: the questions sent to the model, the statements executed and
 the audit writes attempted.
 */
module ChatViews {
  import opened Wrappers
  import opened Text
  import Fences
  import SafeSql
  import opened Rows

  const DefaultAccount: int := 1
  const QuestionRequired: string := "question required"
  const UnsafeMessage: string := "Generated query is not safe. Only SELECT statements are allowed."
  const ModelErrorPrefix: string := "OpenAI API error: "
  const DbErrorPrefix: string := "Database error: "
  const SaveErrorPrefix: string := "Failed to save query: "

  /** The `account_number` key of the request body: missing, an explicit
      null, or a number. */
  datatype AccountField = Absent | Null | Number(n: int)

  /** The JSON body of the request, as far as the handler reads it: a missing
      or null question is `None`. */
  datatype Request = Request(question: Option<string>, accountNumber: AccountField)

  /** `request.data.get("account_number", 1)`: the default applies only when
      the key is missing; an explicit null stays `None`. */
  function Account(field: AccountField): (account: Option<int>)
    ensures field.Absent? ==> account == Some(DefaultAccount)
    ensures field.Null? <==> account.None?
    ensures field.Number? ==> account == Some(field.n)
  {
    match field
    case Absent => Some(DefaultAccount)
    case Null => None
    case Number(n) => Some(n)
  }

  /** What the chat-completion call yields: the reply text, or the message of
      the exception it raised. */
  datatype ModelOutcome = Completion(content: string) | ModelFailure(message: string)

  /** What running a statement yields: column names and rows, or the message
      of the exception the cursor raised. */
  datatype DbOutcome<V> = Rows(columns: seq<string>, rows: seq<seq<V>>) | DbFailure(message: string)

  datatype AuditOutcome = Stored | StoreFailed(message: string)

  /** The JSON body of the response. `QuestionError` has only an `error` key, holding `message`;
      `Payload` has `sql`, `results` and `error` (null as `None`), and
      `row_count` only on success. */
  datatype Body<V> =
    | QuestionError(message: string)
    | Payload(sql: string, results: seq<Dict<V>>, error: Option<string>, rowCount: Option<int>)

  datatype Response<V> = Response(status: int, body: Body<V>)

  datatype Trace = Trace(
    prompts: seq<string>,
    executed: seq<string>,
    audited: seq<(Option<int>, string)>,
    log: seq<string>)

  const NoTrace: Trace := Trace([], [], [], [])

  datatype Stage<V> =
    | Received(request: Request)
    | Translated(sql: string, account: Option<int>)
    | Validated(sql: string, account: Option<int>)
    | Executed(sql: string, account: Option<int>, results: seq<Dict<V>>)
    | Responded(response: Response<V>)

  datatype State<V> = State(stage: Stage<V>, trace: Trace)

  /** Everything outside the handler that decides its path. */
  datatype Env<V> = Env(
    gate: string -> bool,
    model: string -> ModelOutcome,
    db: string -> DbOutcome<V>,
    audit: AuditOutcome)

  // ---------------------------------------------------------------------------
  // Pieces of the handler

  /** Python's `not question` for a string or a missing value. */
  predicate Falsy(question: Option<string>)
  {
    question.None? || question.value == ""
  }

  /** The QUERY-table write: it never raises; a failure only yields the line
      it prints. */
  function SaveQuery(account: Option<int>, sql: string, outcome: AuditOutcome): (log: Option<string>)
    ensures log.None? <==> outcome.Stored?
    ensures outcome.StoreFailed? ==> log == Some(SaveErrorPrefix + outcome.message)
  {
    match outcome
    case Stored => None
    case StoreFailed(msg) => Some(SaveErrorPrefix + msg)
  }

  /** The loop appending `dict(zip(columns, row))` for each fetched row:
      one dict per row, in order. */
  function Assemble<V>(columns: seq<string>, rows: seq<seq<V>>): (results: seq<Dict<V>>)
    ensures |results| == |rows|
    ensures forall i :: 0 <= i < |rows| ==> results[i] == RowDict(columns, rows[i])
  {
    if |rows| == 0 then []
    else [RowDict(columns, rows[0])] + Assemble(columns, rows[1..])
  }

  function ErrorPayload<V>(sql: string, error: string): Body<V>
  {
    Payload(sql, [], Some(error), None)
  }

  /** Stages still ahead of a state. */
  function Rank<V>(stage: Stage<V>): nat
  {
    match stage
    case Received(_) => 4
    case Translated(_, _) => 3
    case Validated(_, _) => 2
    case Executed(_, _, _) => 1
    case Responded(_) => 0
  }

  // ---------------------------------------------------------------------------
  // The machine

  function Step<V>(st: State<V>, env: Env<V>): (next: State<V>)
    ensures st.stage.Responded? ==> next == st
    ensures !st.stage.Responded? ==> Rank(next.stage) < Rank(st.stage)
  {
    var tr := st.trace;
    match st.stage
    case Received(request) =>
      if Falsy(request.question) then
        State(Responded(Response(400, QuestionError(QuestionRequired))), tr)
      else
        var question := request.question.value;
        var tr' := tr.(prompts := tr.prompts + [question]);
        (match env.model(question)
         case ModelFailure(msg) =>
           State(Responded(Response(500, ErrorPayload("", ModelErrorPrefix + msg))), tr')
         case Completion(content) =>
           State(Translated(Fences.CleanReply(content), Account(request.accountNumber)), tr'))
    case Translated(sql, account) =>
      if env.gate(sql) then State(Validated(sql, account), tr)
      else State(Responded(Response(400, ErrorPayload(sql, UnsafeMessage))), tr)
    case Validated(sql, account) =>
      var tr' := tr.(executed := tr.executed + [sql]);
      (match env.db(sql)
       case DbFailure(msg) =>
         State(Responded(Response(400, ErrorPayload(sql, DbErrorPrefix + msg))), tr')
       case Rows(columns, rows) =>
         State(Executed(sql, account, Assemble(columns, rows)), tr'))
    case Executed(sql, account, results) =>
      var printed := SaveQuery(account, sql, env.audit);
      var tr' := tr.(audited := tr.audited + [(account, sql)],
                     log := tr.log + if printed.Some? then [printed.value] else []);
      State(Responded(Response(200, Payload(sql, results, None, Some(|results|)))), tr')
    case Responded(_) => st
  }

  function Run<V>(st: State<V>, env: Env<V>): (final: State<V>)
    ensures final.stage.Responded?
    decreases Rank(st.stage)
  {
    if st.stage.Responded? then st else Run(Step(st, env), env)
  }

  /** What the handler invariantly knows about a state: a statement is only
      executed after it passed the gate, each outside service is consulted at
      most once, the audit write follows a successful execution, and a
      response is a success exactly when its error is null. */
  ghost predicate Invariant<V>(st: State<V>, gate: string -> bool)
  {
    var tr := st.trace;
    && |tr.prompts| <= 1 && |tr.executed| <= 1 && |tr.audited| <= 1 && |tr.log| <= |tr.audited|
    && (forall sql | sql in tr.executed :: gate(sql))
    && (|tr.executed| > 0 ==> |tr.prompts| == 1)
    && (|tr.audited| > 0 ==> |tr.executed| == 1 && tr.audited[0].1 == tr.executed[0])
    && match st.stage
       case Received(_) => tr == NoTrace
       case Translated(_, _) => |tr.prompts| == 1 && tr.executed == []
       case Validated(sql, _) => gate(sql) && |tr.prompts| == 1 && tr.executed == []
       case Executed(sql, _, results) => tr.executed == [sql] && tr.audited == []
       case Responded(r) =>
         && (r.status == 200 <==> r.body.Payload? && r.body.error.None?)
         && (r.status == 200 ==> r.body.rowCount == Some(|r.body.results|) && |tr.audited| == 1)
         && (r.status != 200 ==> tr.audited == [])
  }

  lemma StepKeepsInvariant<V>(st: State<V>, env: Env<V>)
    requires Invariant(st, env.gate)
    ensures Invariant(Step(st, env), env.gate)
  {
  }

  lemma {:induction false} RunKeepsInvariant<V>(st: State<V>, env: Env<V>)
    requires Invariant(st, env.gate)
    ensures Invariant(Run(st, env), env.gate)
    decreases Rank(st.stage)
  {
    if !st.stage.Responded? {
      StepKeepsInvariant(st, env);
      RunKeepsInvariant(Step(st, env), env);
    }
  }

  /** The handler run to its response, with the trace of what it consulted. */
  function Handle<V>(request: Request, env: Env<V>): (out: (Response<V>, Trace))
    ensures out.0.status == 200 <==> out.0.body.Payload? && out.0.body.error.None?
    ensures out.0.status == 200 ==> out.0.body.rowCount == Some(|out.0.body.results|)
    ensures forall sql | sql in out.1.executed :: env.gate(sql)
    ensures |out.1.prompts| <= 1 && |out.1.executed| <= 1 && |out.1.audited| <= 1
    ensures |out.1.executed| == 1 ==> |out.1.prompts| == 1
    ensures |out.1.audited| == 1 <==> out.0.status == 200
    ensures |out.1.audited| == 1 ==> |out.1.executed| == 1 && out.1.audited[0].1 == out.1.executed[0]
  {
    var init := State(Received(request), NoTrace);
    RunKeepsInvariant(init, env);
    var final := Run(init, env);
    (final.stage.response, final.trace)
  }

  /** `nl2sql(request)`: the handler with the backend's SQL gate. */
  function Nl2Sql<V>(request: Request, model: string -> ModelOutcome, db: string -> DbOutcome<V>,
                     audit: AuditOutcome): (out: (Response<V>, Trace))
    ensures out.0.status == 200 <==> out.0.body.Payload? && out.0.body.error.None?
    ensures out.0.status == 200 ==> out.0.body.rowCount == Some(|out.0.body.results|)
    ensures forall sql | sql in out.1.executed :: SafeSql.IsSafeSql(sql)
    ensures |out.1.prompts| <= 1 && |out.1.executed| <= 1 && |out.1.audited| <= 1
    ensures |out.1.audited| == 1 <==> out.0.status == 200
  {
    Handle(request, Env(SafeSql.IsSafeSql, model, db, audit))
  }

  // ---------------------------------------------------------------------------
  // The paths through the handler

  /** `Handle` read off the run from the initial state. */
  lemma HandleRun<V>(request: Request, env: Env<V>, final: State<V>)
    requires Run(State(Received(request), NoTrace), env) == final
    ensures Handle(request, env) == (final.stage.response, final.trace)
  {
  }

  /** An empty or missing question is refused before anything is consulted. */
  lemma MissingQuestion<V>(request: Request, env: Env<V>)
    requires Falsy(request.question)
    ensures Handle(request, env) == (Response(400, QuestionError(QuestionRequired)), NoTrace)
  {
    var s0 := State(Received(request), NoTrace);
    var s1 := State(Responded(Response(400, QuestionError(QuestionRequired))), NoTrace);
    assert Step(s0, env) == s1;
    assert Run(s0, env) == s1;
    HandleRun(request, env, s1);
  }

  /** The state after the model has answered `question`. */
  lemma AfterModel<V>(request: Request, env: Env<V>)
    requires !Falsy(request.question)
    ensures var q := request.question.value;
      var tr := NoTrace.(prompts := [q]);
      Step(State(Received(request), NoTrace), env) ==
        match env.model(q)
        case ModelFailure(msg) => State(Responded(Response(500, ErrorPayload("", ModelErrorPrefix + msg))), tr)
        case Completion(content) => State(Translated(Fences.CleanReply(content), Account(request.accountNumber)), tr)
  {
    assert NoTrace.prompts + [request.question.value] == [request.question.value];
  }

  /** A failing model call gives 500 with an empty statement. */
  lemma ModelFails<V>(request: Request, env: Env<V>)
    requires !Falsy(request.question) && env.model(request.question.value).ModelFailure?
    ensures var (response, trace) := Handle(request, env);
      && response == Response(500, ErrorPayload("", ModelErrorPrefix + env.model(request.question.value).message))
      && trace == NoTrace.(prompts := [request.question.value])
  {
    var s0 := State(Received(request), NoTrace);
    AfterModel(request, env);
    var s1 := Step(s0, env);
    assert Run(s0, env) == s1;
    HandleRun(request, env, s1);
  }

  /** The statement the handler extracts from the model's reply. */
  function Extracted<V>(request: Request, env: Env<V>): string
    requires !Falsy(request.question) && env.model(request.question.value).Completion?
  {
    Fences.CleanReply(env.model(request.question.value).content)
  }

  /** A statement that fails the gate is echoed with 400 and never run. */
  lemma UnsafeRejected<V>(request: Request, env: Env<V>)
    requires !Falsy(request.question) && env.model(request.question.value).Completion?
    requires !env.gate(Extracted(request, env))
    ensures var (response, trace) := Handle(request, env);
      && response == Response(400, ErrorPayload(Extracted(request, env), UnsafeMessage))
      && trace == NoTrace.(prompts := [request.question.value])
  {
    var sql := Extracted(request, env);
    var tr := NoTrace.(prompts := [request.question.value]);
    var s0 := State(Received(request), NoTrace);
    AfterModel(request, env);
    var s1 := State(Translated(sql, Account(request.accountNumber)), tr);
    assert Step(s0, env) == s1;
    var s2 := State(Responded(Response(400, ErrorPayload(sql, UnsafeMessage))), tr);
    assert Step(s1, env) == s2;
    assert Run(s1, env) == s2;
    assert Run(s0, env) == s2;
    HandleRun(request, env, s2);
  }

  /** The state once the extracted statement has passed the gate. */
  lemma ReachValidated<V>(request: Request, env: Env<V>) returns (s2: State<V>)
    requires !Falsy(request.question) && env.model(request.question.value).Completion?
    requires env.gate(Extracted(request, env))
    ensures s2 == State(Validated(Extracted(request, env), Account(request.accountNumber)),
                        NoTrace.(prompts := [request.question.value]))
    ensures Run(State(Received(request), NoTrace), env) == Run(s2, env)
  {
    var sql := Extracted(request, env);
    var tr := NoTrace.(prompts := [request.question.value]);
    var s0 := State(Received(request), NoTrace);
    AfterModel(request, env);
    var s1 := State(Translated(sql, Account(request.accountNumber)), tr);
    assert Step(s0, env) == s1;
    s2 := State(Validated(sql, Account(request.accountNumber)), tr);
    assert Step(s1, env) == s2;
  }

  /** A failing execution gives 400, echoes the statement and is not audited. */
  lemma DatabaseFails<V>(request: Request, env: Env<V>)
    requires !Falsy(request.question) && env.model(request.question.value).Completion?
    requires env.gate(Extracted(request, env))
    requires env.db(Extracted(request, env)).DbFailure?
    ensures var sql := Extracted(request, env);
      var (response, trace) := Handle(request, env);
      && response == Response(400, ErrorPayload(sql, DbErrorPrefix + env.db(sql).message))
      && trace == NoTrace.(prompts := [request.question.value], executed := [sql])
  {
    var sql := Extracted(request, env);
    var s2 := ReachValidated(request, env);
    var tr := NoTrace.(prompts := [request.question.value], executed := [sql]);
    assert s2.trace.executed + [sql] == [sql];
    var s3 := State(Responded(Response(400, ErrorPayload(sql, DbErrorPrefix + env.db(sql).message))), tr);
    assert Step(s2, env) == s3;
    assert Run(s2, env) == s3;
    HandleRun(request, env, s3);
  }

  /** A successful execution gives 200 with one dict per row, a null error,
      a row count equal to the number of rows, and one audit write of the
      statement under the request's account (1 when the key is missing). */
  lemma Succeeds<V>(request: Request, env: Env<V>)
    requires !Falsy(request.question) && env.model(request.question.value).Completion?
    requires env.gate(Extracted(request, env))
    requires env.db(Extracted(request, env)).Rows?
    ensures var sql := Extracted(request, env);
      var rs := env.db(sql);
      var (response, trace) := Handle(request, env);
      && response.status == 200
      && response.body == Payload(sql, response.body.results, None, Some(|rs.rows|))
      && |response.body.results| == |rs.rows|
      && (forall i :: 0 <= i < |rs.rows| ==> response.body.results[i] == RowDict(rs.columns, rs.rows[i]))
      && trace.prompts == [request.question.value]
      && trace.executed == [sql]
      && trace.audited == [(Account(request.accountNumber), sql)]
      && trace.log == (if env.audit.Stored? then [] else [SaveErrorPrefix + env.audit.message])
  {
    var sql := Extracted(request, env);
    var account := Account(request.accountNumber);
    var rs := env.db(sql);
    var s2 := ReachValidated(request, env);
    assert s2.trace.executed + [sql] == [sql];
    var tr := NoTrace.(prompts := [request.question.value], executed := [sql]);
    var results := Assemble(rs.columns, rs.rows);
    var s3 := State(Executed(sql, account, results), tr);
    assert Step(s2, env) == s3;
    var s4 := Step(s3, env);
    assert s4.stage == Responded(Response(200, Payload(sql, results, None, Some(|results|))));
    assert s4.trace.audited == [(account, sql)];
    assert Run(s3, env) == s4;
    HandleRun(request, env, s4);
  }

  /** A successful request is audited under the account its body named:
      1 when the key is missing, null when it is null, else its number. */
  lemma AccountAudited<V>(request: Request, env: Env<V>)
    requires !Falsy(request.question) && env.model(request.question.value).Completion?
    requires env.gate(Extracted(request, env))
    requires env.db(Extracted(request, env)).Rows?
    ensures var audited := Handle(request, env).1.audited;
      && |audited| == 1
      && (request.accountNumber.Absent? ==> audited[0].0 == Some(DefaultAccount))
      && (request.accountNumber.Null? ==> audited[0].0 == None)
      && (request.accountNumber.Number? ==> audited[0].0 == Some(request.accountNumber.n))
  {
    Succeeds(request, env);
  }

  /** A failed audit write leaves only its printed line behind, and the
      request still succeeds; a stored one leaves nothing. */
  lemma AuditLogged<V>(request: Request, env: Env<V>)
    requires !Falsy(request.question) && env.model(request.question.value).Completion?
    requires env.gate(Extracted(request, env))
    requires env.db(Extracted(request, env)).Rows?
    ensures var (response, trace) := Handle(request, env);
      && response.status == 200
      && (env.audit.Stored? ==> trace.log == [])
      && (env.audit.StoreFailed? ==> trace.log == [SaveErrorPrefix + env.audit.message])
  {
    Succeeds(request, env);
  }

  /** The outcome of the audit write never shows in the response. */
  lemma AuditIrrelevant<V>(request: Request, env: Env<V>, audit: AuditOutcome)
    ensures Handle(request, env).0 == Handle(request, env.(audit := audit)).0
    ensures Handle(request, env).1.audited == Handle(request, env.(audit := audit)).1.audited
  {
    var env' := env.(audit := audit);
    var q := request.question;
    if Falsy(q) {
      MissingQuestion(request, env);
      MissingQuestion(request, env');
    } else if env.model(q.value).ModelFailure? {
      ModelFails(request, env);
      ModelFails(request, env');
    } else if !env.gate(Extracted(request, env)) {
      UnsafeRejected(request, env);
      UnsafeRejected(request, env');
    } else if env.db(Extracted(request, env)).DbFailure? {
      DatabaseFails(request, env);
      DatabaseFails(request, env');
    } else {
      Succeeds(request, env);
      Succeeds(request, env');
    }
  }
}
