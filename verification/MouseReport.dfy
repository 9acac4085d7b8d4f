/** The SGR mouse decoder, as far as it decides what is a report. It is one value of the
    `isMouse` table that the framer is generic in. */
module MouseReport {
  import opened Wrappers
  import opened Bytes
  import opened EscapeSyntax

  const SEMICOLON: Byte := 0x3B
  const PLUS: Byte := 0x2B

  predicate IsSemicolon(b: Byte) {
    b == SEMICOLON
  }

  /** `str::split(';')`. */
  function Fields(s: seq<Byte>): (fields: seq<seq<Byte>>)
    ensures |fields| >= 1
    decreases |s|
  {
    var i := PositionFrom(s, IsSemicolon, 0);
    if i.None? then [s] else [s[..i.value]] + Fields(s[i.value + 1..])
  }

  function Decimal(digits: seq<Byte>): nat
    requires All(digits, IsDigit)
  {
    if digits == [] then 0
    else
      var front, last := digits[..|digits| - 1], digits[|digits| - 1];
      Decimal(front) * 10 + (last - 0x30)
  }

  /** `str::parse` to an unsigned integer: an optional plus sign, then digits, no overflow. */
  function ParseUnsigned(s: seq<Byte>, max: nat): (r: Option<nat>)
    ensures r.Some? ==> r.value <= max
  {
    var digits := if s != [] && s[0] == PLUS then s[1..] else s;
    if digits == [] || !All(digits, IsDigit) || Decimal(digits) > max then None else Some(Decimal(digits))
  }

  /** `parse_mouse_cb` knows the button: bits 0, 1, 6 and 7 number it, bit 5 says dragging. */
  predicate IsKnownButton(cb: nat) {
    var number := cb % 4 + cb / 64 * 4;
    number <= 5 || (number <= 7 && cb / 32 % 2 == 0)
  }

  /** `parse_sgr_mouse` succeeds. It reads the first three fields and ignores the others. */
  predicate IsSgrMouse(s: seq<Byte>) {
    && StartsWith(s, CSI_MOUSE) && |s| >= 4 && IsMouseFinal(s[|s| - 1])
    && IsReport(Fields(s[3..|s| - 1]))
  }

  predicate IsReport(fields: seq<seq<Byte>>) {
    && |fields| >= 3
    && var cb, column, row := ParseUnsigned(fields[0], 0xFF), ParseUnsigned(fields[1], 0xFFFF),
                              ParseUnsigned(fields[2], 0xFFFF);
       && cb.Some? && column.Some? && row.Some?
       && column.value >= 1 && row.value >= 1 && IsKnownButton(cb.value)
  }

  lemma FieldsStep(head: seq<Byte>, rest: seq<Byte>)
    requires forall i :: 0 <= i < |head| ==> head[i] != SEMICOLON
    ensures Fields(head + [SEMICOLON] + rest) == [head] + Fields(rest)
  {
    var s := head + [SEMICOLON] + rest;
    assert PositionFrom(s, IsSemicolon, 0) == Some(|head|) by {
      assert forall i :: 0 <= i < |head| ==> s[i] == head[i];
      assert s[|head|] == SEMICOLON;
    }
    assert s[..|head|] == head && s[|head| + 1..] == rest;
  }

  /** Three plain fields and anything behind them make a report. */
  lemma ReportWithTrailer(cb: seq<Byte>, column: seq<Byte>, row: seq<Byte>, trailer: seq<Byte>, final: Byte)
    requires All(cb, IsDigit) && All(column, IsDigit) && All(row, IsDigit)
    requires ParseUnsigned(cb, 0xFF).Some? && IsKnownButton(ParseUnsigned(cb, 0xFF).value)
    requires ParseUnsigned(column, 0xFFFF).Some? && ParseUnsigned(column, 0xFFFF).value >= 1
    requires ParseUnsigned(row, 0xFFFF).Some? && ParseUnsigned(row, 0xFFFF).value >= 1
    requires IsMouseFinal(final)
    ensures var payload := cb + [SEMICOLON] + (column + [SEMICOLON] + (row + [SEMICOLON] + trailer));
            IsSgrMouse(CSI_MOUSE + payload + [final])
  {
    hide Fields, ParseUnsigned, IsKnownButton, StartsWith;
    var payload := cb + [SEMICOLON] + (column + [SEMICOLON] + (row + [SEMICOLON] + trailer));
    ThreeFields(cb, column, row, trailer);
    Framed(payload, final);
  }

  lemma ThreeFields(cb: seq<Byte>, column: seq<Byte>, row: seq<Byte>, trailer: seq<Byte>)
    requires All(cb, IsDigit) && All(column, IsDigit) && All(row, IsDigit)
    ensures var fields := Fields(cb + [SEMICOLON] + (column + [SEMICOLON] + (row + [SEMICOLON] + trailer)));
            |fields| >= 3 && fields[0] == cb && fields[1] == column && fields[2] == row
  {
    hide Fields;
    var last := row + [SEMICOLON] + trailer;
    var behind := column + [SEMICOLON] + last;
    FieldsStep(row, trailer);
    FieldsStep(column, last);
    FieldsStep(cb, behind);
  }

  lemma Framed(payload: seq<Byte>, final: Byte)
    ensures var s := CSI_MOUSE + payload + [final];
            StartsWith(s, CSI_MOUSE) && |s| >= 4 && s[|s| - 1] == final && s[3..|s| - 1] == payload
  {
  }
}
