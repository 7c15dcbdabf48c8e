/** `get_current_user` (main.py:205-215): the `Authorization` header must read
    `Bearer <token>`; the token then goes to the JWT decoder. The decoder
    (python-jose, with its signature check and 24-hour expiry) is not part of
    this model: it is a parameter, a partial function from token to user id. */
module Auth {

  import opened Wrappers
  import opened Schema

  const BearerPrefix := "Bearer "

  const InvalidHeader := HttpError(401, "Invalid authorization header")

  const InvalidToken := HttpError(401, "Invalid or expired token")

  /** Python's `s.startswith(prefix)`. */
  predicate StartsWith(s: string, prefix: string)
  {
    |prefix| <= |s| && s[..|prefix|] == prefix
  }

  /** Python's `s.split(sep, 1)[1]`: what follows the first `sep`. Python
      raises `IndexError` when `sep` does not occur; this function asks for it. */
  function AfterFirst(s: string, sep: char): (r: string)
    requires sep in s
    ensures exists i :: 0 <= i < |s| && s[i] == sep && sep !in s[..i] && r == s[i + 1..]
  {
    if s[0] == sep then
      assert s[..0] == [];
      s[1..]
    else
      var r := AfterFirst(s[1..], sep);
      var i :| 0 <= i < |s[1..]| && s[1..][i] == sep && sep !in s[1..][..i] && r == s[1..][i + 1..];
      assert s[..i + 1] == [s[0]] + s[1..][..i];
      r
  }

  /** The header check of `get_current_user`: a header that does not start with
      `Bearer ` is refused; otherwise the token is the text after the first
      space, which is everything after the prefix. */
  function ParseAuthorization(header: string): (r: Result<string, HttpError>)
    ensures r.Ok? <==> StartsWith(header, BearerPrefix)
    ensures r.Ok? ==> header == BearerPrefix + r.value
    ensures r.Err? ==> r.error == InvalidHeader
  {
    if StartsWith(header, BearerPrefix) then
      assert header[6] == ' ';
      var token := AfterFirst(header, ' ');
      assert header[..6] == "Bearer";
      var i :| 0 <= i < |header| && header[i] == ' ' && ' ' !in header[..i] && token == header[i + 1..];
      assert i == 6;
      assert header == header[..7] + header[7..];
      Ok(token)
    else
      Err(InvalidHeader)
  }

  /** `get_current_user`: the user id the token in the header stands for,
      given the decoder; 401 for a bad header and 401 for a token the decoder
      refuses. */
  function CurrentUser(header: string, decode: string -> Option<nat>): (r: Result<nat, HttpError>)
    ensures !StartsWith(header, BearerPrefix) ==> r == Err(InvalidHeader)
    ensures StartsWith(header, BearerPrefix) ==>
      var token := header[|BearerPrefix|..];
      r == if decode(token).Some? then Ok(decode(token).value) else Err(InvalidToken)
  {
    match ParseAuthorization(header)
    case Err(e) => Err(e)
    case Ok(token) =>
      assert token == header[|BearerPrefix|..];
      match decode(token)
      case Some(id) => Ok(id)
      case None => Err(InvalidToken)
  }
}
