/** The status-line table `status_for` used by every text response. */
module Status {

  /** The codes the table names; every other code is reported as 500. */
  const KnownCodes: set<int> := {200, 202, 204, 302, 400, 403, 404, 405, 409, 413, 415}

  /** The status line for an HTTP status code. */
  function StatusFor(code: int): (line: string)
    ensures |line| > 4 && line[3] == ' '
    ensures CodeOf(line) == if code in KnownCodes then code else 500
  {
    match code
    case 200 => "200 OK"
    case 202 => "202 Accepted"
    case 204 => "204 No Content"
    case 302 => "302 Found"
    case 400 => "400 Bad Request"
    case 403 => "403 Forbidden"
    case 404 => "404 Not Found"
    case 405 => "405 Method Not Allowed"
    case 409 => "409 Conflict"
    case 413 => "413 Payload Too Large"
    case 415 => "415 Unsupported Media Type"
    case _ => "500 Internal Server Error"
  }

  function DigitValue(c: char): int
  {
    c as int - '0' as int
  }

  /** The numeric code at the head of a status line, read as three decimal
      digits. */
  function CodeOf(line: string): int
    requires |line| >= 3
  {
    DigitValue(line[0]) * 100 + DigitValue(line[1]) * 10 + DigitValue(line[2])
  }

  /** Distinct known codes get distinct status lines, and an unknown code
      gets the same line as 500. */
  lemma StatusLinesDistinguishKnownCodes(a: int, b: int)
    requires a in KnownCodes && b in KnownCodes && a != b
    ensures StatusFor(a) != StatusFor(b)
  {
    assert CodeOf(StatusFor(a)) != CodeOf(StatusFor(b));
  }

  lemma UnknownCodeIsServerError(code: int)
    requires code !in KnownCodes
    ensures StatusFor(code) == StatusFor(500)
  {
  }
}
