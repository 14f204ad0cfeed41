/** Definitions shared by the shell model: optional values (a C pointer that may
    be NULL), the NUL terminator and the character classes the shell tests. */
module Common {

  /** A value that may be absent; `None` plays the part of a C NULL pointer. */
  datatype Option<+T> = None | Some(value: T)

  /** The C string terminator. */
  const NUL: char := 0 as char

  /** Characters the model admits in C strings: 7-bit ASCII without NUL.
      Bytes of 128 and above are sign-extended by the C code and are not modelled. */
  predicate IsAsciiChar(c: char) {
    0 < c as int < 128
  }

  predicate IsAscii(s: string) {
    forall i :: 0 <= i < |s| ==> IsAsciiChar(s[i])
  }

  /** A C string holds no NUL before its end. */
  predicate NoNul(s: string) {
    forall i :: 0 <= i < |s| ==> s[i] != NUL
  }

  /** The keystrokes the line editor stores: bytes 32 through 126. */
  predicate IsPrintable(c: char) {
    32 <= c as int <= 126
  }

  /** `pre` is a prefix of `s`, which is what `strncmp(s, pre, strlen(pre)) == 0`
      decides for C strings. */
  predicate IsPrefix(pre: string, s: string) {
    |pre| <= |s| && s[..|pre|] == pre
  }

  function Min(a: int, b: int): int {
    if a <= b then a else b
  }

  function Max(a: int, b: int): int {
    if a >= b then a else b
  }

  /** The C string that starts at index `i` of a character buffer: everything up
      to the first NUL (or the end of the buffer). */
  function CString(b: seq<char>, i: nat): (r: string)
    ensures NoNul(r)
    decreases |b| - i
  {
    if i >= |b| || b[i] == NUL then [] else [b[i]] + CString(b, i + 1)
  }

  /** Reading a C string stops exactly at the first NUL. */
  lemma {:induction false} CStringUpTo(b: seq<char>, i: nat, j: nat)
    requires i <= j < |b|
    requires forall m :: i <= m < j ==> b[m] != NUL
    requires b[j] == NUL
    ensures CString(b, i) == b[i..j]
    decreases j - i
  {
    if i < j {
      CStringUpTo(b, i + 1, j);
      assert b[i..j] == [b[i]] + b[i + 1..j];
    }
  }
}
