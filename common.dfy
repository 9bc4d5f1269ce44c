/** Small shared vocabulary: optional values, JavaScript truthiness of request fields, and the ObjectId form of ids. */
module Common {

  datatype Option<T> = None | Some(value: T)

  /** A request field that JavaScript treats as truthy: present and not the empty string. */
  predicate Given(s: Option<string>)
  {
    s.Some? && s.value != ""
  }

  predicate IsHexDigit(c: char)
  {
    '0' <= c <= '9' || 'a' <= c <= 'f' || 'A' <= c <= 'F'
  }

  /** Whether every character of `s` is a hexadecimal digit. */
  function HexRun(s: string): (b: bool)
    ensures b <==> forall i :: 0 <= i < |s| ==> IsHexDigit(s[i])
  {
    if s == [] then true else HexRun(s[..|s| - 1]) && IsHexDigit(s[|s| - 1])
  }

  /** The test `/^[0-9a-fA-F]{24}$/`: exactly 24 characters, all hexadecimal digits. */
  function IsObjectId(s: string): (b: bool)
    ensures b <==> |s| == 24 && forall i :: 0 <= i < |s| ==> IsHexDigit(s[i])
  {
    |s| == 24 && HexRun(s)
  }
}
