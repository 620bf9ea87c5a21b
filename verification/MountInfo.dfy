/** Decoding of the octal escapes in mountinfo paths (proc_pid_mountinfo(5)): the strict decoder
    of the mount check, the lenient replacer of the bind-reference search, and the kernel's
    encoder that both must undo. */
module MountInfo {
  datatype Decoded = Path(value: string) | BadEscape

  // ----- The kernel's encoder -----

  /** The kernel escapes space, tab, newline and backslash, and nothing else. */
  function EscapeChar(c: char): string {
    if c == ' ' then "\\040" else if c == '\t' then "\\011" else if c == '\n' then "\\012"
    else if c == '\\' then "\\134" else [c]
  }

  function Escape(path: string): string {
    if path == [] then [] else EscapeChar(path[0]) + Escape(path[1..])
  }

  // ----- The strict decoder -----

  predicate IsOctal(c: char) { '0' <= c <= '7' }

  function OctalDigit(c: char): nat
    requires IsOctal(c)
  {
    c as int - '0' as int
  }

  /** The byte written as three octal digits, if it is one of the four escapable ones. */
  function EscapedByte(d0: char, d1: char, d2: char): (c: seq<char>)
    ensures |c| <= 1
  {
    if !IsOctal(d0) || !IsOctal(d1) || !IsOctal(d2) then []
    else
      var v := OctalDigit(d0) * 64 + OctalDigit(d1) * 8 + OctalDigit(d2);
      if v == 32 then " " else if v == 9 then "\t" else if v == 10 then "\n" else if v == 92 then "\\" else []
  }

  function Decode(field: string): Decoded {
    if field == [] then Path([])
    else if field[0] != '\\' then Prepend([field[0]], Decode(field[1..]))
    else if |field| < 4 then BadEscape
    else
      var c := EscapedByte(field[1], field[2], field[3]);
      if c == [] then BadEscape else Prepend(c, Decode(field[4..]))
  }

  function Prepend(head: string, tail: Decoded): Decoded {
    if tail.Path? then Path(head + tail.value) else BadEscape
  }

  /** The decoder as written: a byte loop that jumps over the digits of an escape. */
  method DecodeMountInfoPath(field: string) returns (r: Decoded)
    ensures r == Decode(field)
  {
    var decoded := "";
    var i := 0;
    while i < |field|
      invariant 0 <= i <= |field|
      invariant Decode(field) == Prepend(decoded, Decode(field[i..]))
    {
      assert field[i..][0] == field[i] && field[i..][1..] == field[i + 1..];
      if field[i] != '\\' {
        PrependTwice(decoded, [field[i]], Decode(field[i + 1..]));
        decoded := decoded + [field[i]];
        i := i + 1;
        continue;
      }
      if i + 3 >= |field| {
        return BadEscape;
      }
      var c := EscapedByte(field[i + 1], field[i + 2], field[i + 3]);
      if c == [] {
        return BadEscape;
      }
      assert field[i..][4..] == field[i + 4..];
      PrependTwice(decoded, c, Decode(field[i + 4..]));
      decoded := decoded + c;
      i := i + 4;
    }
    assert field[i..] == [];
    return Path(decoded);
  }

  lemma PrependTwice(a: string, b: string, tail: Decoded)
    ensures Prepend(a, Prepend(b, tail)) == Prepend(a + b, tail)
  {
    if tail.Path? { assert a + (b + tail.value) == (a + b) + tail.value; }
  }

  // ----- The lenient replacer -----

  /** `strings.NewReplacer` with the four escapes: an escape becomes its byte, and any other
      byte, including a stray backslash, is copied. */
  function Unescape(field: string): string {
    if field == [] then []
    else if field[0] == '\\' && |field| >= 4 && field[1..4] == "040" then " " + Unescape(field[4..])
    else if field[0] == '\\' && |field| >= 4 && field[1..4] == "011" then "\t" + Unescape(field[4..])
    else if field[0] == '\\' && |field| >= 4 && field[1..4] == "012" then "\n" + Unescape(field[4..])
    else if field[0] == '\\' && |field| >= 4 && field[1..4] == "134" then "\\" + Unescape(field[4..])
    else [field[0]] + Unescape(field[1..])
  }

  // ----- What they promise -----

  const ESCAPES: set<string> := {"040", "011", "012", "134"}

  /** The three digits are one of the four codes exactly when the decoder accepts them. */
  lemma EscapedByteAccepts(d0: char, d1: char, d2: char)
    ensures EscapedByte(d0, d1, d2) != [] <==> [d0, d1, d2] in ESCAPES
    ensures [d0, d1, d2] == "040" ==> EscapedByte(d0, d1, d2) == " "
    ensures [d0, d1, d2] == "011" ==> EscapedByte(d0, d1, d2) == "\t"
    ensures [d0, d1, d2] == "012" ==> EscapedByte(d0, d1, d2) == "\n"
    ensures [d0, d1, d2] == "134" ==> EscapedByte(d0, d1, d2) == "\\"
  {
    if IsOctal(d0) && IsOctal(d1) && IsOctal(d2) {
      var v := OctalDigit(d0) * 64 + OctalDigit(d1) * 8 + OctalDigit(d2);
      assert v == 32 <==> d0 == '0' && d1 == '4' && d2 == '0';
      assert v == 9 <==> d0 == '0' && d1 == '1' && d2 == '1';
      assert v == 10 <==> d0 == '0' && d1 == '1' && d2 == '2';
      assert v == 92 <==> d0 == '1' && d1 == '3' && d2 == '4';
    }
    var s := [d0, d1, d2];
    assert s == "040" <==> d0 == '0' && d1 == '4' && d2 == '0';
    assert s == "011" <==> d0 == '0' && d1 == '1' && d2 == '1';
    assert s == "012" <==> d0 == '0' && d1 == '1' && d2 == '2';
    assert s == "134" <==> d0 == '1' && d1 == '3' && d2 == '4';
  }

  /** Every backslash starts one of the four escapes. */
  ghost predicate WellEscaped(field: string) {
    forall i :: 0 <= i < |field| && field[i] == '\\' ==> i + 3 < |field| && field[i + 1..i + 4] in ESCAPES
  }

  lemma WellEscapedTail(field: string, k: nat)
    requires k <= |field|
    requires forall i :: 0 <= i < k && field[i] == '\\' ==> i + 3 < |field| && field[i + 1..i + 4] in ESCAPES
    ensures WellEscaped(field) <==> WellEscaped(field[k..])
  {
    if WellEscaped(field) {
      forall i | 0 <= i < |field| - k && field[k..][i] == '\\'
        ensures i + 3 < |field| - k && field[k..][i + 1..i + 4] in ESCAPES
      {
        assert field[k + i] == '\\';
        assert field[k..][i + 1..i + 4] == field[k + i + 1..k + i + 4];
      }
    }
    if WellEscaped(field[k..]) {
      forall i | 0 <= i < |field| && field[i] == '\\' ensures i + 3 < |field| && field[i + 1..i + 4] in ESCAPES {
        if i >= k {
          assert field[k..][i - k] == '\\';
          assert field[k..][i - k + 1..i - k + 4] == field[i + 1..i + 4];
        }
      }
    }
  }

  /** The decoder accepts a field exactly when every backslash in it starts one of the four
      escapes: a truncated, unknown or out-of-range escape is rejected. */
  lemma {:induction false} DecodeAccepts(field: string)
    ensures Decode(field).Path? <==> WellEscaped(field)
  {
    if field == [] {
    } else if field[0] != '\\' {
      DecodeAccepts(field[1..]);
      WellEscapedTail(field, 1);
    } else if |field| >= 4 {
      assert field[1..4] == [field[1], field[2], field[3]];
      EscapedByteAccepts(field[1], field[2], field[3]);
      DecodeAccepts(field[4..]);
      if field[1..4] in ESCAPES {
        assert field[1] != '\\' && field[2] != '\\' && field[3] != '\\';
        WellEscapedTail(field, 4);
      }
    }
  }

  /** An escape in front is decoded to its byte. */
  lemma DecodeOfEscape(d0: char, d1: char, d2: char, rest: string)
    requires EscapedByte(d0, d1, d2) != []
    ensures Decode(['\\', d0, d1, d2] + rest) == Prepend(EscapedByte(d0, d1, d2), Decode(rest))
  {
    hide EscapedByte, Prepend;
    assert (['\\', d0, d1, d2] + rest)[4..] == rest;
  }

  lemma DecodeOfEscapedChar(c: char, rest: string)
    ensures Decode(EscapeChar(c) + rest) == Prepend([c], Decode(rest))
  {
    hide Decode, Prepend;
    if c == ' ' {
      EscapedByteAccepts('0', '4', '0');
      DecodeOfEscape('0', '4', '0', rest);
    } else if c == '\t' {
      EscapedByteAccepts('0', '1', '1');
      DecodeOfEscape('0', '1', '1', rest);
    } else if c == '\n' {
      EscapedByteAccepts('0', '1', '2');
      DecodeOfEscape('0', '1', '2', rest);
    } else if c == '\\' {
      EscapedByteAccepts('1', '3', '4');
      DecodeOfEscape('1', '3', '4', rest);
    } else {
      DecodeOfPlain(c, rest);
    }
  }

  lemma DecodeOfPlain(c: char, rest: string)
    requires c != '\\'
    ensures Decode([c] + rest) == Prepend([c], Decode(rest))
  {
    assert ([c] + rest)[1..] == rest;
  }

  /** Decoding undoes the kernel's escaping, for every path. */
  lemma {:induction false} DecodeUndoesEscape(path: string)
    ensures Decode(Escape(path)) == Path(path)
  {
    hide Decode, EscapeChar;
    if path != [] {
      DecodeUndoesEscape(path[1..]);
      DecodeOfEscapedChar(path[0], Escape(path[1..]));
    } else {
      DecodeOfNothing();
    }
  }

  lemma DecodeOfNothing()
    ensures Decode("") == Path("")
  {
  }

  /** So does the replacer. */
  lemma UnescapeUndoesEscape(path: string)
    ensures Unescape(Escape(path)) == path
  {
    DecodeUndoesEscape(path);
    UnescapeAgrees(Escape(path));
  }

  /** An escaped byte is escaped again to the same four characters. */
  lemma EscapeOfEscaped(d0: char, d1: char, d2: char)
    requires EscapedByte(d0, d1, d2) != []
    ensures EscapeChar(EscapedByte(d0, d1, d2)[0]) == ['\\', d0, d1, d2]
  {
    EscapedByteAccepts(d0, d1, d2);
  }

  /** Escaping undoes decoding, on fields without raw blanks such as those the kernel writes. */
  lemma {:induction false} EscapeUndoesDecode(field: string)
    requires Decode(field).Path?
    requires forall i :: 0 <= i < |field| ==> field[i] != ' ' && field[i] != '\t' && field[i] != '\n'
    ensures Escape(Decode(field).value) == field
  {
    hide EscapedByte;
    if field != [] {
      var c := if field[0] != '\\' then [field[0]] else EscapedByte(field[1], field[2], field[3]);
      var n := if field[0] != '\\' then 1 else 4;
      EscapeUndoesDecode(field[n..]);
      assert Decode(field).value == c + Decode(field[n..]).value;
      assert Decode(field).value[1..] == Decode(field[n..]).value;
      if field[0] == '\\' {
        EscapeOfEscaped(field[1], field[2], field[3]);
      }
      assert field == EscapeChar(c[0]) + field[n..];
    }
  }

  /** Both decoders read every field the strict one accepts in the same way. */
  lemma {:induction false} UnescapeAgrees(field: string)
    requires Decode(field).Path?
    ensures Unescape(field) == Decode(field).value
  {
    if field != [] {
      if field[0] != '\\' {
        UnescapeAgrees(field[1..]);
      } else {
        assert field[1..4] == [field[1], field[2], field[3]];
        EscapedByteAccepts(field[1], field[2], field[3]);
        UnescapeAgrees(field[4..]);
      }
    }
  }
}
