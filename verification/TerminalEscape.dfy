/** `write_payload`: broker-supplied bytes on their way to a terminal. */
module TerminalEscape {
  import opened Mqtt

  /** Tab, printable ASCII and every byte of multi-byte UTF-8 pass through. */
  predicate Printable(b: byte) {
    b == 0x09 || 0x20 <= b < 0x7f || b >= 0x80
  }

  function HexDigit(n: int): byte
    requires 0 <= n < 16
  {
    if n < 10 then 0x30 + n else 0x61 + (n - 10)
  }

  /** Backslash, x, two lower-case hexadecimal digits. */
  function EscapeByte(b: byte): seq<byte> {
    if Printable(b) then [b] else [0x5c, 0x78, HexDigit(b / 16), HexDigit(b % 16)]
  }

  /** Each byte on its own. */
  function Escape(bytes: seq<byte>): seq<byte> {
    if bytes == [] then [] else EscapeByte(bytes[0]) + Escape(bytes[1..])
  }

  lemma {:induction false} EscapeConcat(a: seq<byte>, b: seq<byte>)
    ensures Escape(a + b) == Escape(a) + Escape(b)
    decreases |a|
  {
    if a == [] {
      assert a + b == b;
    } else {
      assert (a + b)[1..] == a[1..] + b;
      EscapeConcat(a[1..], b);
    }
  }

  lemma {:induction false} PrintableUnchanged(a: seq<byte>)
    requires forall i :: 0 <= i < |a| ==> Printable(a[i])
    ensures Escape(a) == a
    decreases |a|
  {
    if a != [] {
      PrintableUnchanged(a[1..]);
      assert a == [a[0]] + a[1..];
    }
  }

  /** A run of printable bytes can be written in one piece. */
  lemma PlainRun(bytes: seq<byte>, from: nat, to: nat)
    requires from <= to <= |bytes| && forall i :: from <= i < to ==> Printable(bytes[i])
    ensures Escape(bytes[..to]) == Escape(bytes[..from]) + bytes[from..to]
  {
    var before, plain := bytes[..from], bytes[from..to];
    assert bytes[..to] == before + plain;
    EscapeConcat(before, plain);
    forall i | 0 <= i < |plain| ensures Printable(plain[i]) {
      assert plain[i] == bytes[from + i];
    }
    PrintableUnchanged(plain);
  }

  lemma EscapeNext(bytes: seq<byte>, i: nat)
    requires i < |bytes|
    ensures Escape(bytes[..i + 1]) == Escape(bytes[..i]) + EscapeByte(bytes[i])
  {
    EscapeConcat(bytes[..i], [bytes[i]]);
    assert bytes[..i] + [bytes[i]] == bytes[..i + 1];
    assert Escape([bytes[i]]) == EscapeByte(bytes[i]) + Escape([]);
  }

  /** The index-tracking loop writes exactly the per-byte escape; to anything but
      a terminal the bytes go unmodified. */
  method WritePayload(bytes: seq<byte>, escape: bool) returns (out: seq<byte>)
    ensures out == if escape then Escape(bytes) else bytes
  {
    if !escape {
      return bytes;
    }
    out := [];
    var plainFrom := 0;
    for index := 0 to |bytes|
      invariant 0 <= plainFrom <= index
      invariant forall i :: plainFrom <= i < index ==> Printable(bytes[i])
      invariant out == Escape(bytes[..plainFrom])
    {
      var b := bytes[index];
      if Printable(b) {
        continue;
      }
      PlainRun(bytes, plainFrom, index);
      EscapeNext(bytes, index);
      out := out + bytes[plainFrom..index];
      out := out + [0x5c, 0x78, HexDigit(b / 16), HexDigit(b % 16)];
      plainFrom := index + 1;
    }
    PlainRun(bytes, plainFrom, |bytes|);
    assert bytes[plainFrom..|bytes|] == bytes[plainFrom..] && bytes[..|bytes|] == bytes;
    out := out + bytes[plainFrom..];
  }

  /** How many bytes are controls: below 0x20 except tab, or DEL. */
  function ControlCount(bytes: seq<byte>): nat {
    if bytes == [] then 0
    else (if (bytes[0] < 0x20 && bytes[0] != 0x09) || bytes[0] == 0x7f then 1 else 0) + ControlCount(bytes[1..])
  }

  /** The terminal sees no byte below 0x20 but tab and no 0x7f, and the length says
      how many bytes were escaped. */
  lemma {:induction false} NothingUnprintable(bytes: seq<byte>)
    ensures forall i :: 0 <= i < |Escape(bytes)| ==>
              (Escape(bytes)[i] >= 0x20 || Escape(bytes)[i] == 0x09) && Escape(bytes)[i] != 0x7f
    ensures |Escape(bytes)| == |bytes| + 3 * ControlCount(bytes)
    decreases |bytes|
  {
    if bytes != [] {
      NothingUnprintable(bytes[1..]);
      assert Escape(bytes) == EscapeByte(bytes[0]) + Escape(bytes[1..]);
    }
  }

  /** The value of a digit 0-9 or a-f; 16 for anything else. */
  function HexValue(b: byte): nat {
    if 0x30 <= b <= 0x39 then b - 0x30 else if 0x61 <= b <= 0x66 then b - 0x61 + 10 else 16
  }

  /** Read escaped text back: backslash, x and two digits stand for one byte. */
  function Unescape(text: seq<byte>): seq<nat>
    decreases |text|
  {
    if text == [] then []
    else if |text| >= 4 && text[0] == 0x5c && text[1] == 0x78 then
      [16 * HexValue(text[2]) + HexValue(text[3])] + Unescape(text[4..])
    else [text[0]] + Unescape(text[1..])
  }

  /** Reading back gives every byte of an input without a backslash, controls and
      multi-byte text included. */
  lemma {:induction false} EscapeRoundTrip(bytes: seq<byte>)
    requires forall i :: 0 <= i < |bytes| ==> bytes[i] != 0x5c
    ensures |Unescape(Escape(bytes))| == |bytes|
    ensures forall i :: 0 <= i < |bytes| ==> Unescape(Escape(bytes))[i] == bytes[i]
    decreases |bytes|
  {
    if bytes != [] {
      EscapeRoundTrip(bytes[1..]);
      UnescapeFirst(bytes[0], Escape(bytes[1..]));
    }
  }

  lemma UnescapeFirst(b: byte, rest: seq<byte>)
    requires b != 0x5c
    ensures Unescape(EscapeByte(b) + rest) == [b] + Unescape(rest)
  {
    var text := EscapeByte(b) + rest;
    if Printable(b) {
      assert text[1..] == rest;
    } else {
      assert text[4..] == rest;
      assert 16 * HexValue(text[2]) + HexValue(text[3]) == 16 * (b / 16) + b % 16;
    }
  }

  lemma EscapeIdempotent(bytes: seq<byte>)
    ensures Escape(Escape(bytes)) == Escape(bytes)
  {
    NothingUnprintable(bytes);
    PrintableUnchanged(Escape(bytes));
  }

  // ---- when two inputs look the same ----

  /** The four bytes from i on are literally the escape of some control byte. */
  predicate SpellsControl(a: seq<byte>, i: nat) {
    i + 4 <= |a| && exists b: byte :: !Printable(b) && a[i..i + 4] == EscapeByte(b)
  }

  /** Position i holds a control byte or the spelling of one. */
  predicate Confusable(a: seq<byte>, i: nat) {
    i < |a| && (!Printable(a[i]) || SpellsControl(a, i))
  }

  /** Replacing a piece by another with the same escape changes nothing. */
  lemma SwapPiece(before: seq<byte>, x: seq<byte>, y: seq<byte>, after: seq<byte>)
    requires Escape(x) == Escape(y)
    ensures Escape(before + x + after) == Escape(before + y + after)
  {
    EscapeConcat(before + x, after);
    EscapeConcat(before, x);
    EscapeConcat(before + y, after);
    EscapeConcat(before, y);
  }

  lemma ControlLooksLikeItsSpelling(b: byte)
    requires !Printable(b)
    ensures Escape([b]) == Escape(EscapeByte(b)) == EscapeByte(b)
  {
    PrintableUnchanged(EscapeByte(b));
    assert Escape([b]) == EscapeByte(b) + [];
  }

  lemma SpellOut(a: seq<byte>, i: nat) returns (b: seq<byte>)
    requires i < |a| && !Printable(a[i])
    ensures b != a && Escape(b) == Escape(a)
  {
    var before, spelled, after := a[..i], EscapeByte(a[i]), a[i + 1..];
    assert a == before + [a[i]] + after;
    ControlLooksLikeItsSpelling(a[i]);
    SwapPiece(before, [a[i]], spelled, after);
    b := before + spelled + after;
    assert |b| == |a| + 3;
  }

  lemma ReadBack(a: seq<byte>, i: nat, control: byte) returns (b: seq<byte>)
    requires i + 4 <= |a| && !Printable(control) && a[i..i + 4] == EscapeByte(control)
    ensures b != a && Escape(b) == Escape(a)
  {
    var before, spelled, after := a[..i], a[i..i + 4], a[i + 4..];
    assert a == before + spelled + after;
    ControlLooksLikeItsSpelling(control);
    SwapPiece(before, [control], spelled, after);
    b := before + [control] + after;
    assert |b| == |a| - 3;
  }

  /** A different input with the same output: the control byte spelled out, or the
      spelling replaced by the byte. */
  lemma Twin(a: seq<byte>, i: nat) returns (b: seq<byte>)
    requires Confusable(a, i)
    ensures b != a && Escape(b) == Escape(a)
  {
    if !Printable(a[i]) {
      b := SpellOut(a, i);
    } else {
      var control: byte :| !Printable(control) && a[i..i + 4] == EscapeByte(control);
      b := ReadBack(a, i, control);
    }
  }

  /** Where a control byte of the input is spelled in the output. */
  lemma ControlIsSpelled(b: seq<byte>, j: nat)
    requires j < |b| && !Printable(b[j])
    ensures Confusable(Escape(b), |Escape(b[..j])|)
  {
    var i := |Escape(b[..j])|;
    EscapeNext(b, j);
    EscapeConcat(b[..j + 1], b[j + 1..]);
    assert b == b[..j + 1] + b[j + 1..];
    assert Escape(b) == Escape(b[..j]) + EscapeByte(b[j]) + Escape(b[j + 1..]);
    assert Escape(b)[i..i + 4] == EscapeByte(b[j]);
  }

  lemma UnconfusableIsUnique(a: seq<byte>, b: seq<byte>)
    requires Escape(a) == Escape(b) && forall i: nat :: !Confusable(a, i)
    ensures a == b
  {
    forall i | 0 <= i < |a| ensures Printable(a[i]) {
      assert !Confusable(a, i);
    }
    PrintableUnchanged(a);
    forall j | 0 <= j < |b| ensures Printable(b[j]) {
      if !Printable(b[j]) {
        ControlIsSpelled(b, j);
        assert false;
      }
    }
    PrintableUnchanged(b);
  }

  /** An input shares its output with another exactly when it holds a control byte
      or literally spells one; every other input can be read back. */
  lemma AmbiguousIff(a: seq<byte>)
    ensures (exists b :: b != a && Escape(b) == Escape(a)) <==> (exists i: nat :: Confusable(a, i))
  {
    if i: nat :| Confusable(a, i) {
      var b := Twin(a, i);
    } else {
      forall b | Escape(b) == Escape(a) ensures b == a {
        UnconfusableIsUnique(a, b);
      }
    }
  }

  /** For instance ESC and the text that spells it. */
  lemma EscapeNotInjective()
    ensures Escape([0x1b]) == Escape([0x5c, 0x78, 0x31, 0x62]) && [0x1b] != [0x5c, 0x78, 0x31, 0x62]
  {
    ControlLooksLikeItsSpelling(0x1b);
  }

  /** Among inputs without a backslash, controls included, escaping is injective. */
  lemma InjectiveWithoutBackslash(a: seq<byte>, b: seq<byte>)
    requires forall i :: 0 <= i < |a| ==> a[i] != 0x5c
    requires forall i :: 0 <= i < |b| ==> b[i] != 0x5c
    requires Escape(a) == Escape(b)
    ensures a == b
  {
    EscapeRoundTrip(a);
    EscapeRoundTrip(b);
  }
}
