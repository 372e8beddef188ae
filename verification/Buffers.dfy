/** Character buffers and the strings C keeps in them. */
module Buffers {

  function Min(a: nat, b: nat): nat { if a < b then a else b }

  function Max(a: nat, b: nat): nat { if a < b then b else a }

  function Zeros(n: nat): (z: string)
    ensures |z| == n && forall i :: 0 <= i < n ==> z[i] == '\0'
  {
    seq(n, _ => '\0')
  }

  /** What a buffer holds after some data has been stored at its beginning. */
  function Overlay(buf: string, data: string): (r: string)
    requires |data| <= |buf|
    ensures |r| == |buf|
    ensures forall i :: 0 <= i < |r| ==> r[i] == if i < |data| then data[i] else buf[i]
  {
    data + buf[|data|..]
  }

  /** The position of the first terminator, or the size of the buffer. */
  function StrLen(buf: string): (n: nat)
    ensures n <= |buf|
    ensures forall i :: 0 <= i < n ==> buf[i] != '\0'
    ensures n < |buf| ==> buf[n] == '\0'
  {
    if buf == "" || buf[0] == '\0' then 0 else 1 + StrLen(buf[1..])
  }

  /** The string a buffer holds, as printf's %s shows it. */
  function CString(buf: string): string {
    buf[..StrLen(buf)]
  }

  function Terminated(text: string): string {
    text + ['\0']
  }

  /** Storing a terminated string makes the buffer hold exactly that string, whatever
      longer string is left over behind it. */
  lemma StoredString(buf: string, text: string)
    requires '\0' !in text && |text| < |buf|
    ensures CString(Overlay(buf, Terminated(text))) == text
    ensures Terminated(CString(Overlay(buf, Terminated(text)))) == Terminated(text)
  {
    var r := Overlay(buf, Terminated(text));
    assert r[|text|] == '\0';
    assert forall i :: 0 <= i < |text| ==> r[i] == text[i] && text[i] in text;
    assert StrLen(r) == |text|;
  }

  /** strlen. */
  method CountToTerminator(buf: array<char>) returns (n: nat)
    ensures n == StrLen(buf[..])
  {
    n := 0;
    while n < buf.Length && buf[n] != '\0'
      invariant n <= buf.Length
      invariant forall i :: 0 <= i < n ==> buf[i] != '\0'
    {
      n := n + 1;
    }
    assert forall i :: 0 <= i < buf.Length ==> buf[..][i] == buf[i];
  }

  /** Copies data to the beginning of a buffer. */
  method Store(buf: array<char>, data: string)
    requires |data| <= buf.Length
    modifies buf
    ensures buf[..] == Overlay(old(buf[..]), data)
  {
    var i := 0;
    while i < |data|
      invariant i <= |data|
      invariant forall k :: 0 <= k < buf.Length ==> buf[k] == if k < i then data[k] else old(buf[k])
    {
      buf[i] := data[i];
      i := i + 1;
    }
  }
}
