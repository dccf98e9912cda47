/** The global error middleware: it turns an error raised by a route into a JSON response.
    Validation errors answer 400 with one detail per issue, SQLite errors answer 500 with
    the driver's code, and anything else answers its own status (500 by default) with the
    internal message hidden behind a fixed text when the status is 500. */
module ErrorHandler {
  import opened Common
  import Text
  import Numbers

  /** One step of an issue's path: a property name or an array index. */
  datatype PathKey = Key(name: string) | Index(n: nat)

  datatype ZodIssue = ZodIssue(path: seq<PathKey>, message: string)

  /** The error reaching the handler; a property it lacks is None. */
  datatype AppError = AppError(name: string, message: string, code: Option<string>,
                               status: Option<int>, issues: Option<seq<ZodIssue>>)

  datatype Detail = Detail(campo: string, mensagem: string)

  /** The three JSON bodies the handler sends. */
  datatype Body =
    | ValidationBody(sucesso: bool, error: string, detalhes: seq<Detail>)
    | DatabaseBody(sucesso: bool, error: string, dbCode: string)
    | GenericBody(sucesso: bool, error: string, statusCode: int)

  datatype Response = Response(status: int, body: Body)

  const ValidationMessage: string := "Erro de valida\U{00E7}\U{00E3}o nos dados de entrada"
  const DatabaseMessage: string := "Erro interno no banco de dados"
  const InternalMessage: string := "Ocorreu um erro interno no servidor. Tente novamente mais tarde."
  const SqlitePrefix: string := "SQLITE_"

  /** The text `join` gives a path step: the name, or the index in decimal. */
  function PathKeyText(k: PathKey): string
  {
    match k
    case Key(name) => name
    case Index(n) => Numbers.NatToString(n)
  }

  function PathTexts(path: seq<PathKey>): seq<string>
  {
    if path == [] then [] else [PathKeyText(path[0])] + PathTexts(path[1..])
  }

  /** `e.path.join('.')`. */
  function Campo(path: seq<PathKey>): string
  {
    Text.Join(PathTexts(path), ".")
  }

  /** `(err.issues || []).map(...)`. */
  function Details(issues: seq<ZodIssue>): seq<Detail>
  {
    if issues == [] then [] else [Detail(Campo(issues[0].path), issues[0].message)] + Details(issues[1..])
  }

  predicate IsValidationError(err: AppError)
  {
    err.name == "ZodError"
  }

  /** `err.code && err.code.startsWith('SQLITE_')`. */
  predicate IsDatabaseError(err: AppError)
  {
    err.code.Some? && err.code.value != "" && SqlitePrefix <= err.code.value
  }

  /** `err.status || 500`. */
  function StatusCode(err: AppError): int
  {
    if err.status.Some? && err.status.value != 0 then err.status.value else 500
  }

  /** `errorHandler`: the response sent for an error. */
  function HandleError(err: AppError): Response
  {
    if IsValidationError(err) then
      Response(400, ValidationBody(false, ValidationMessage, Details(if err.issues.Some? then err.issues.value else [])))
    else if IsDatabaseError(err) then
      Response(500, DatabaseBody(false, DatabaseMessage, err.code.value))
    else
      var statusCode := StatusCode(err);
      Response(statusCode, GenericBody(false, if statusCode == 500 then InternalMessage else err.message, statusCode))
  }

  /** The branches in order of precedence: a validation error answers 400 whatever its code
      or status; otherwise an error whose code starts with "SQLITE_" answers 500 with that
      code; every other error answers its status code, echoed in the body. No response
      reports success. */
  lemma HandleErrorSpec(err: AppError)
    ensures !HandleError(err).body.sucesso
    ensures HandleError(err).body.ValidationBody? <==> IsValidationError(err)
    ensures HandleError(err).body.DatabaseBody? <==> !IsValidationError(err) && IsDatabaseError(err)
    ensures IsValidationError(err) ==>
              && HandleError(err).status == 400
              && HandleError(err).body.error == ValidationMessage
              && (err.issues.None? ==> HandleError(err).body.detalhes == [])
              && (err.issues.Some? ==> HandleError(err).body.detalhes == Details(err.issues.value))
    ensures !IsValidationError(err) && IsDatabaseError(err) ==>
              HandleError(err) == Response(500, DatabaseBody(false, DatabaseMessage, err.code.value))
    ensures !IsValidationError(err) && !IsDatabaseError(err) ==>
              && HandleError(err).body.GenericBody?
              && HandleError(err).status == HandleError(err).body.statusCode == StatusCode(err)
  {
  }

  /** Status 500 is answered exactly when the error has no status, status 0 or status 500;
      any other status is passed through. */
  lemma StatusCodeSpec(err: AppError)
    ensures StatusCode(err) == 500 <==> err.status.None? || err.status.value == 0 || err.status.value == 500
    ensures err.status.Some? && err.status.value != 0 ==> StatusCode(err) == err.status.value
  {
  }

  /** A generic error's own message reaches the client exactly when its status is not 500;
      at 500 the fixed internal message is sent instead. */
  lemma GenericMessageSpec(err: AppError)
    requires !IsValidationError(err) && !IsDatabaseError(err)
    ensures HandleError(err).status == 500 ==> HandleError(err).body.error == InternalMessage
    ensures HandleError(err).status != 500 ==> HandleError(err).body.error == err.message
  {
  }

  /** One detail per issue, in order, naming the issue's path joined with dots and carrying
      its message. */
  lemma {:induction false} DetailsSpec(issues: seq<ZodIssue>)
    ensures |Details(issues)| == |issues|
    ensures forall i :: 0 <= i < |issues| ==>
              Details(issues)[i] == Detail(Campo(issues[i].path), issues[i].message)
  {
    if issues != [] {
      DetailsSpec(issues[1..]);
      assert forall i :: 1 <= i < |issues| ==> issues[1..][i - 1] == issues[i];
    }
  }

  /** One text per path step, in order. */
  lemma {:induction false} PathTextsSpec(path: seq<PathKey>)
    ensures |PathTexts(path)| == |path|
    ensures forall i :: 0 <= i < |path| ==> PathTexts(path)[i] == PathKeyText(path[i])
  {
    if path != [] {
      PathTextsSpec(path[1..]);
      assert forall i :: 1 <= i < |path| ==> path[1..][i - 1] == path[i];
    }
  }

  /** No property name on the path holds a dot. */
  predicate DotFreeKeys(path: seq<PathKey>)
  {
    forall i :: 0 <= i < |path| ==> (path[i].Key? ==> '.' !in path[i].name)
  }

  /** When no property name holds a dot, the field name of a detail splits back on '.' into
      the steps of the issue's path (indices in decimal). */
  lemma CampoSplits(path: seq<PathKey>)
    requires path != [] && DotFreeKeys(path)
    ensures Text.Split(Campo(path), '.') == PathTexts(path)
  {
    PathTextsSpec(path);
    forall i | 0 <= i < |path|
      ensures '.' !in PathTexts(path)[i]
    {
      if path[i].Index? {
        var s := Numbers.NatToString(path[i].n);
        assert Numbers.AllDigits(s);
        assert forall k :: 0 <= k < |s| ==> s[k] != '.';
      }
    }
    Text.SplitJoin(PathTexts(path), '.');
  }
}
