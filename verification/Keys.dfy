/** Base64 key material, as far as it is checked: 32 bytes are 43 digits of the alphabet and one pad. */
module Keys {
  import opened Strings

  const KEY_TEXT_LENGTH := 44

  predicate IsBase64Digit(c: char) {
    'A' <= c <= 'Z' || 'a' <= c <= 'z' || '0' <= c <= '9' || c == '+' || c == '/'
  }

  /** Text that decodes to exactly 32 bytes. */
  predicate Encodes32Bytes(s: string) {
    && |s| == KEY_TEXT_LENGTH
    && s[KEY_TEXT_LENGTH - 1] == '='
    && forall i :: 0 <= i < KEY_TEXT_LENGTH - 1 ==> IsBase64Digit(s[i])
  }

  function WithoutLineBreaks(s: string): string {
    if s == "" then ""
    else if s[0] == '\n' || s[0] == '\r' then WithoutLineBreaks(s[1..])
    else [s[0]] + WithoutLineBreaks(s[1..])
  }

  /** The profile's check trims the text, and the decoder skips line breaks. */
  predicate ValidBase64Key(s: string) {
    Encodes32Bytes(WithoutLineBreaks(TrimSpace(s)))
  }

  /** The check of peer keys fixes the length first, so no line break can be skipped. */
  predicate ValidateKey(s: string) {
    Encodes32Bytes(s)
  }
}
