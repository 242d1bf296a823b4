/**
 * The part of the framework's HTTP response that cache validation touches:
 * the status code, the buffered output and the headers.
 */
module Responses {

  type Header = (string, string)

  /** A snapshot of a response, so that contracts can compare before and after. */
  datatype ResponseState = ResponseState(status: int, body: seq<char>, headers: seq<Header>)

  class Response {
    var status: int
    var body: seq<char>
    var headers: seq<Header>

    function State(): (s: ResponseState)
      reads this
    {
      ResponseState(status, body, headers)
    }

    /** Sets the status code and nothing else. */
    method SetStatus(code: int)
      modifies this
      ensures State() == old(State()).(status := code)
    {
      status := code;
    }

    /** Discards the buffered output and nothing else. */
    method ClearOutput()
      modifies this
      ensures State() == old(State()).(body := [])
    {
      body := [];
    }

    /** Adds one header and nothing else. */
    method AddHeader(name: string, value: string)
      modifies this
      ensures State() == old(State()).(headers := old(headers) + [(name, value)])
    {
      headers := headers + [(name, value)];
    }
  }
}
