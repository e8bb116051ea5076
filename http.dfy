/**
 * The parts of the HTTP types (`http` and `axum` crates) that the middleware
 * touches: status codes, the header map with its `get` and `insert`, request
 * targets, bodies that may fail to be read in full, and a response object
 * whose status and headers are changed in place.
 */
module Http {
  import opened Wrappers

  /** One byte of a body. */
  type Byte = b: int | 0 <= b < 256

  type Bytes = seq<Byte>

  /** `http::StatusCode` accepts the three-digit codes 100 to 999. */
  type StatusCode = c: int | 100 <= c < 1000 witness 200

  const PARTIAL_CONTENT: StatusCode := 206
  const TEMPORARY_REDIRECT: StatusCode := 307
  const BAD_REQUEST: StatusCode := 400
  const NOT_FOUND: StatusCode := 404
  const INSUFFICIENT_STORAGE: StatusCode := 507

  /** Header names are kept in lower case, as `http::HeaderName` normalises them. */
  const CONTENT_TYPE := "content-type"
  const LOCATION := "location"

  /**
   * A header value: each character stands for one byte of the raw value, so a
   * value may hold characters that are not visible ASCII.
   */
  datatype Header = Header(name: string, value: string)

  /** A header multimap in iteration order; a name may occur several times. */
  type HeaderMap = seq<Header>

  predicate LowerCase(name: string)
  {
    forall i :: 0 <= i < |name| ==> !('A' <= name[i] <= 'Z')
  }

  /**
   * The convention every header map of this model follows: `http::HeaderName`
   * stores names in lower case, so a header sent as `Content-Type` is found
   * under `content-type`.
   */
  predicate LowerCaseNames(hs: HeaderMap)
  {
    forall i :: 0 <= i < |hs| ==> LowerCase(hs[i].name)
  }

  /** All values stored under `name`, in order (`HeaderMap::get_all`). */
  function Values(hs: HeaderMap, name: string): seq<string>
  {
    if hs == [] then []
    else (if hs[0].name == name then [hs[0].value] else []) + Values(hs[1..], name)
  }

  /** `HeaderMap::get`: the first value stored under `name`. */
  function Get(hs: HeaderMap, name: string): Option<string>
  {
    var vs := Values(hs, name);
    if vs == [] then None else Some(vs[0])
  }

  /** The headers of `hs` whose name is not `name`, in order. */
  function Without(hs: HeaderMap, name: string): (r: HeaderMap)
    ensures forall i :: 0 <= i < |r| ==> r[i].name != name
    ensures forall h :: h in r ==> h in hs
    ensures (forall i :: 0 <= i < |hs| ==> hs[i].name != name) ==> r == hs
    ensures Values(r, name) == []
    ensures forall other :: other != name ==> Values(r, other) == Values(hs, other)
  {
    if hs == [] then []
    else if hs[0].name == name then Without(hs[1..], name)
    else [hs[0]] + Without(hs[1..], name)
  }

  /**
   * `HeaderMap::insert`: the first header named `name` gets the new value in
   * its place and every later one is dropped; a name not present yet is
   * appended at the end.
   */
  function Insert(hs: HeaderMap, name: string, value: string): (r: HeaderMap)
    ensures Values(r, name) == [value]
    ensures Get(r, name) == Some(value)
    ensures Without(r, name) == Without(hs, name)
    ensures forall other :: other != name ==> Values(r, other) == Values(hs, other)
    ensures forall h :: h in r ==> h in hs || h == Header(name, value)
  {
    if hs == [] then [Header(name, value)]
    else if hs[0].name == name then [Header(name, value)] + Without(hs[1..], name)
    else [hs[0]] + Insert(hs[1..], name, value)
  }

  /** Inserting under a lower-case name keeps the convention. */
  lemma InsertKeepsLowerCase(hs: HeaderMap, name: string, value: string)
    requires LowerCaseNames(hs) && LowerCase(name)
    ensures LowerCaseNames(Insert(hs, name, value))
  {
    var r := Insert(hs, name, value);
    forall i | 0 <= i < |r| ensures LowerCase(r[i].name) {
      assert r[i] in r;
      if r[i] != Header(name, value) {
        var j :| 0 <= j < |hs| && hs[j] == r[i];
      }
    }
  }

  /** `HeaderValue::to_str` accepts a value made of visible ASCII characters and tabs only. */
  predicate VisibleAscii(v: string)
  {
    forall i :: 0 <= i < |v| ==> v[i] == '\t' || (' ' <= v[i] && v[i] <= '~')
  }

  /** `HeaderValue::to_str`. */
  function ToStr(v: string): Option<string>
  {
    if VisibleAscii(v) then Some(v) else None
  }

  /** The request target: a path and an optional query string. */
  datatype Uri = Uri(path: string, query: Option<string>)

  /** A parsed path never holds `?`: the first `?` of a target starts the query. */
  predicate ValidUri(u: Uri)
  {
    '?' !in u.path
  }

  /** The target as text (`Uri::to_string` for a request in origin form). */
  function Target(u: Uri): string
  {
    u.path + match u.query
      case None => ""
      case Some(q) => "?" + q
  }

  /** In the text of a valid target, the path runs up to the first `?`, which opens the query. */
  lemma TargetShape(u: Uri)
    requires ValidUri(u)
    ensures |u.path| <= |Target(u)| && Target(u)[..|u.path|] == u.path
    ensures forall i :: 0 <= i < |u.path| ==> Target(u)[i] != '?'
    ensures |u.path| < |Target(u)| <==> u.query.Some?
    ensures |u.path| < |Target(u)| ==> Target(u)[|u.path|] == '?'
  {
    assert forall i :: 0 <= i < |u.path| ==> Target(u)[i] == u.path[i];
  }

  /** No normalisation: two valid targets have the same text only if they are the same target. */
  lemma TargetInjective(u1: Uri, u2: Uri)
    requires ValidUri(u1) && ValidUri(u2)
    ensures Target(u1) == Target(u2) <==> u1 == u2
  {
    if Target(u1) == Target(u2) {
      var t := Target(u1);
      TargetShape(u1);
      TargetShape(u2);
      assert u1.path == t[..|u1.path|] == u2.path;
      var rest := t[|u1.path|..];
      match u1.query
      case None =>
        assert rest == [];
      case Some(q) =>
        assert rest == "?" + q;
        assert u2.query == Some(rest[1..]);
    }
  }

  /** A request as the middleware sees it; its header names follow `LowerCaseNames`. */
  datatype Request = Request(uri: Uri, headers: HeaderMap)

  /** `http::response::Parts`: the status line and headers of a response; its header names follow `LowerCaseNames`. */
  datatype Parts = Parts(status: StatusCode, headers: HeaderMap)

  /**
   * A response body: either its bytes can be read in full, or reading it
   * fails part way (a downstream I/O error on a started stream).
   */
  datatype Body = Full(bytes: Bytes) | Failing

  datatype Drained = Ok(bytes: Bytes) | Err

  /** `axum::body::to_bytes(body, usize::MAX)`: reads the whole body into memory. */
  function ToBytes(b: Body): Drained
  {
    match b
    case Full(bytes) => Ok(bytes)
    case Failing => Err
  }

  /** A response as a value: parts and body. */
  datatype Message = Message(parts: Parts, body: Body)

  /** `Redirect::temporary(uri).into_response()`: 307 with a `location` header and no body. */
  function TemporaryRedirect(uri: string): (m: Message)
    ensures m.parts.status == TEMPORARY_REDIRECT
    ensures Get(m.parts.headers, LOCATION) == Some(uri)
    ensures ToBytes(m.body) == Ok([])
  {
    Message(Parts(TEMPORARY_REDIRECT, [Header(LOCATION, uri)]), Full([]))
  }

  /** A response object, whose status and headers the middleware changes in place. */
  class Response {
    var parts: Parts
    var body: Body

    /** `Response::from_parts`. */
    constructor FromParts(parts: Parts, body: Body)
      ensures this.parts == parts && this.body == body
    {
      this.parts := parts;
      this.body := body;
    }

    function Value(): Message
      reads this
    {
      Message(parts, body)
    }

    /** `*response.status_mut() = status`. */
    method SetStatus(status: StatusCode)
      modifies this
      ensures parts == old(parts).(status := status) && body == old(body)
    {
      parts := parts.(status := status);
    }

    /** `response.headers_mut().insert(name, value)`. */
    method InsertHeader(name: string, value: string)
      modifies this
      ensures parts == old(parts).(headers := Insert(old(parts.headers), name, value))
      ensures body == old(body)
    {
      parts := parts.(headers := Insert(parts.headers, name, value));
    }
  }
}
