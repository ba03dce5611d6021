/** The entities of the request resolver: user tokens, the request documents
    the build service answers with, the records kept in the finder's `srs`
    map, the errors raised, and the remote answers the finder consults. */
module Model {
  import opened Text

  datatype Option<T> = None | Some(value: T)

  /** Request ids are positive integers assigned by the build service, so a
      request id is always truthy in Python. */
  type RequestId = n: int | n > 0 witness 1

  /** A token given by the user: Python's `_is_int` accepts both ints and
      strings, while the command line passes strings. */
  datatype Token = IntToken(number: int) | StrToken(text: string)

  datatype Target = Target(project: string, package: string)

  /** One `<action>` of a request: its `<target>` and, when there is a
      `<source>` element carrying a `project` attribute, that project. */
  datatype Action = Action(target: Target, source: Option<string>)

  /** One `<request>` document: its `id` attribute, the `name` of its
      `<state>` and its `<action>` elements in document order. */
  datatype RequestDoc = RequestDoc(id: RequestId, state: string, actions: seq<Action>)

  /** One value of `srs`: `{'project': p}` or `{'project': p, 'state': s}`
      (Scoped), or `{'staging': s}` (Staged). */
  datatype Record = Scoped(project: string, state: Option<string>) | Staged(staging: string)

  type Srs = map<int, Record>

  /** The exceptions the resolver raises. */
  datatype Failure =
    | OutOfScope(request: Token, project: string)                  // WrongArgs: request is not for openSUSE:<X>
    | MultipleRequests(package: string, earlier: int, later: int)   // WrongArgs: multiple requests for a package
    | NoRequestFound(token: Token)                                  // WrongArgs: no SR# found for a token
    | NotMonotonic(earlier: int, later: int)                        // AssertionError: ids do not increase
    | MissingAction(id: int)                                        // AttributeError: document without <action>
    | NotAString(token: Token)                                      // AttributeError: string method on an int token

  datatype Result<T> = Ok(value: T) | Err(failure: Failure)

  /** The map after an operation together with what it returned or raised;
      when it raised, `srs` is the map as the exception left it. */
  datatype Outcome<T> = Outcome(srs: Srs, result: Result<T>)

  /** The remote answers the finder consults through its `api`:
      - `opensuse`: the distribution name `<X>` of `openSUSE:<X>`;
      - `byId`: the document served for `request/<text>`, or None when the
        GET fails with an HTTP error;
      - `byPackage`: the collection served for the package query with the
        given package text (states new, review, declined);
      - `openRequests`: the collection served for the project query (states
        new, review);
      - `stagings`: the staging projects, in the order they are listed;
      - `packageForRequest` / `requestForPackage`: the two staging lookups. */
  datatype Api = Api(
    opensuse: string,
    byId: string -> Option<RequestDoc>,
    byPackage: string -> seq<RequestDoc>,
    openRequests: seq<RequestDoc>,
    stagings: seq<string>,
    packageForRequest: (string, Token) -> bool,
    requestForPackage: (string, Token) -> Option<RequestId>)

  /** `openSUSE:<X>`, the master project. */
  function Master(api: Api): string {
    "openSUSE:" + api.opensuse
  }

  /** `openSUSE:<X>:Staging:`, the prefix of every staging project. */
  function StagingPrefix(api: Api): string {
    Master(api) + ":Staging:"
  }

  /** Python's `_is_int`: an int, or a string of decimal digits. */
  predicate IsInt(t: Token) {
    t.IntToken? || IsDigits(t.text)
  }

  /** Python's `str(t)`. */
  function TokenText(t: Token): string {
    match t
    case IntToken(n) => IntToString(n)
    case StrToken(s) => s
  }

  /** Python's `int(t)`, defined for the tokens `_is_int` accepts. */
  function IntValue(t: Token): int
    requires IsInt(t)
  {
    match t
    case IntToken(n) => n
    case StrToken(s) => DecimalValue(s)
  }

  /** A token whose text is the canonical text of a request id is accepted
      by `_is_int`, and `int` of it is that id. */
  lemma EchoedIdIsKey(t: Token, id: RequestId)
    requires TokenText(t) == NatToString(id)
    ensures IsInt(t) && IntValue(t) == id
  {
    match t
    case IntToken(n) =>
      assert IntToString(id) == NatToString(id);
      IntToStringInjective(n, id);
    case StrToken(s) =>
      DecimalRoundTrip(id);
  }
}
