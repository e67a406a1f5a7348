/** Character buffers as C reads them. */
module CStrings {
  /** A buffer's text: up to its first NUL. */
  function CString(buf: seq<char>): string {
    if buf == [] || buf[0] == '\0' then "" else [buf[0]] + CString(buf[1..])
  }

  lemma {:induction false} CStringIs(buf: seq<char>, n: nat)
    requires n < |buf| && buf[n] == '\0' && '\0' !in buf[..n]
    ensures CString(buf) == buf[..n]
  {
    if n > 0 {
      assert buf[..n][0] == buf[0] && buf[1..][..n - 1] == buf[..n][1..];
      CStringIs(buf[1..], n - 1);
    }
  }
}
