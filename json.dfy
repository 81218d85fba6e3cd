/**
 * The entry point `Json::parse`: the literal `null` is recognised up front, anything else goes
 * to `json_decode`, whose null result means the source could not be decoded.
 */
module Json {
  import opened Text
  import opened Nodes
  import opened Exceptions
  import opened Values

  /** `Json::pretend`: any node, wrapped as the document root. */
  function Pretend(n: Node): (v: Value)
    ensures v.node == n && v.pointer == "$"
  {
    Value(n, "$")
  }

  /**
   * `preg_match("/^\s*null\s*$/", $source)`: after the leading whitespace comes the word
   * `null`, and only whitespace after it.
   */
  predicate IsNullLiteral(source: string)
  {
    var t := TrimStart(source);
    |t| >= 4 && t[..4] == "null" && AllSpace(t[4..])
  }

  /** The regular expression matches exactly the sources that are `null` with whitespace on either side. */
  lemma NullLiteralMeaning(source: string)
    ensures IsNullLiteral(source) <==>
              exists a, b :: AllSpace(a) && AllSpace(b) && source == a + "null" + b
  {
    TrimStartSplits(source);
    var t := TrimStart(source);
    var a := source[..|source| - |t|];
    if IsNullLiteral(source) {
      var b := t[4..];
      assert t == "null" + b;
      assert source == a + "null" + b;
    }
    if exists a, b :: AllSpace(a) && AllSpace(b) && source == a + "null" + b {
      var a', b' :| AllSpace(a') && AllSpace(b') && source == a' + "null" + b';
      assert ("null" + b')[0] == 'n';
      assert source == a' + ("null" + b');
      TrimStartSkipsSpaces(a', "null" + b');
      assert t[..4] == "null" && t[4..] == b';
    }
  }

  /** The spellings of null the library accepts, and some it does not. */
  lemma NullSpellings()
    ensures IsNullLiteral("null") && IsNullLiteral(" null") && IsNullLiteral("\tnull")
    ensures IsNullLiteral("\nnull") && IsNullLiteral("null ") && IsNullLiteral("null\t")
    ensures IsNullLiteral("null\n")
    ensures !IsNullLiteral("NULL") && !IsNullLiteral("nul") && !IsNullLiteral("null x")
    ensures !IsNullLiteral("[null]") && !IsNullLiteral("")
  {
    assert "null"[..4] == "null";
    assert " null"[1..] == "null";
    assert "\tnull"[1..] == "null";
    assert "\nnull"[1..] == "null";
    assert "null "[..4] == "null" && "null "[4..] == " ";
    assert "null\t"[..4] == "null" && "null\t"[4..] == "\t";
    assert "null\n"[..4] == "null" && "null\n"[4..] == "\n";
    assert "null x"[4..][1] == 'x';
  }

  /**
   * What `json_decode($source, false, $depth, $options)` does: it returns the decoded node (`Null`
   * standing for PHP null), with `json_last_error_msg()` and `json_last_error()` as they are
   * afterwards; or it throws (a `JsonException` under `JSON_THROW_ON_ERROR`, a `ValueError` for a
   * depth below 1), which `Json::parse` does not catch.
   */
  datatype Decoded =
    | Decoded(result: Node, errorMessage: string, errorCode: int)
    | DecodeThrew(error: Error)

  /**
   * `Json::parse`: the null literal is the root null without decoding; otherwise the decoded
   * node is the root, a null decoding raises `CantDecode` with the decoder's message and code,
   * and a throw of the decoder escapes unchanged.
   */
  function Parse(source: string, depth: int, options: int, decoder: (string, int, int) -> Decoded)
    : (r: Result<Value>)
    ensures IsNullLiteral(source) ==> r == Ok(Pretend(Null))
    ensures !IsNullLiteral(source) && decoder(source, depth, options).DecodeThrew? ==>
              r == Raise(decoder(source, depth, options).error)
    ensures !IsNullLiteral(source) && decoder(source, depth, options).Decoded? &&
            decoder(source, depth, options).result.Null? ==>
              r == Raise(CantDecode(decoder(source, depth, options).errorMessage,
                                    decoder(source, depth, options).errorCode))
    ensures !IsNullLiteral(source) && decoder(source, depth, options).Decoded? &&
            !decoder(source, depth, options).result.Null? ==>
              r == Ok(Pretend(decoder(source, depth, options).result))
  {
    if IsNullLiteral(source) then Ok(Pretend(Null))
    else
      var d := decoder(source, depth, options);
      if d.DecodeThrew? then Raise(d.error)
      else if d.result.Null? then Raise(CantDecode(d.errorMessage, d.errorCode)) else Ok(Pretend(d.result))
  }

  /**
   * Parsing never fails an assertion; a parsed value is the root; it is null exactly when the
   * source is the null literal; and when the decoder returns, the only throwable is `CantDecode`.
   */
  lemma ParseOutcomes(source: string, depth: int, options: int, decoder: (string, int, int) -> Decoded)
    ensures !Parse(source, depth, options, decoder).Fail?
    ensures Parse(source, depth, options, decoder).Ok? ==> Parse(source, depth, options, decoder).value.pointer == "$"
    ensures (Parse(source, depth, options, decoder).Ok? && Parse(source, depth, options, decoder).value.node.Null?)
            <==> IsNullLiteral(source)
    ensures Parse(source, depth, options, decoder).Raise? ==>
              Parse(source, depth, options, decoder).error.CantDecode? ||
              decoder(source, depth, options) == DecodeThrew(Parse(source, depth, options, decoder).error)
  {
  }

  /** The null literal is recognised without consulting the decoder at all. */
  lemma NullLiteralBypassesDecoder(source: string, depth: int, options: int,
                                   d1: (string, int, int) -> Decoded, d2: (string, int, int) -> Decoded)
    requires IsNullLiteral(source)
    ensures Parse(source, depth, options, d1) == Parse(source, depth, options, d2)
  {
  }
}
