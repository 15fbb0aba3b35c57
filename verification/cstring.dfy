/** C strings as the command-line and test helpers read them: a `string` whose terminating NUL
    is implicit. A position past the end reads as the terminator, and a NUL inside the text ends
    it as it does in C. */
module CString {
  const NUL: char := '\0'

  /** The character at position `i`, the terminator past the end. */
  function At(s: string, i: nat): char
  {
    if i < |s| then s[i] else NUL
  }
}
