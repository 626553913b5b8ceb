/**
 * Cell objects and the reuse-identifier rule of Classes/Table/TableCell.swift.
 *
 * A cell object is what the `TableCellObject` protocol lets a cell ask of
 * it: an optional reuse identifier, a cell style and an optional cell
 * class (named by a string). The name of the cell class that asks for an
 * identifier is a parameter.
 */
module TableCells {
  import opened Wrappers

  /** `UITableViewCellStyle`, with its raw values. */
  datatype CellStyle = Default | Value1 | Value2 | Subtitle {
    function RawValue(): (v: nat)
      ensures v < 4
    {
      match this
      case Default => 0
      case Value1 => 1
      case Value2 => 2
      case Subtitle => 3
    }
  }

  lemma RawValueInjective(a: CellStyle, b: CellStyle)
    ensures a.RawValue() == b.RawValue() <==> a == b
  {
  }

  /** What a cell object answers to `reuseIdentifier()`, `cellStyle()` and `tableCellClass()`. */
  datatype CellObject = CellObject(reuseIdentifier: Option<string>, cellStyle: CellStyle, tableCellClass: Option<string>)

  /** `TableItem`: no cell class, the default style and no reuse identifier of its own. */
  function TableItem(): (item: CellObject)
    ensures item.reuseIdentifier == None
    ensures item.cellStyle == Default && item.cellStyle.RawValue() == 0
    ensures item.tableCellClass == None
  {
    CellObject(None, Default, None)
  }

  function Digit(d: nat): (c: char)
    requires d < 10
    ensures '0' <= c <= '9'
    ensures c as int - '0' as int == d
  {
    ('0' as int + d) as char
  }

  /** The number a string of decimal digits denotes, most significant first. */
  function DigitsValue(s: string): nat
    requires forall i :: 0 <= i < |s| ==> '0' <= s[i] <= '9'
  {
    if s == [] then 0 else DigitsValue(s[..|s| - 1]) * 10 + (s[|s| - 1] as int - '0' as int)
  }

  /** The decimal digits of `n`, most significant first, without leading zeros. */
  function DecimalString(n: nat): (s: string)
    ensures 1 <= |s|
    ensures forall i :: 0 <= i < |s| ==> '0' <= s[i] <= '9'
    ensures |s| == 1 <==> n < 10
    ensures s[|s| - 1] as int - '0' as int == n % 10
    ensures |s| > 1 ==> s[0] != '0'
    ensures DigitsValue(s) == n
  {
    if n < 10 then
      assert [Digit(n)][..0] == [];
      [Digit(n)]
    else
      var prefix := DecimalString(n / 10);
      assert (prefix + [Digit(n % 10)])[..|prefix|] == prefix;
      prefix + [Digit(n % 10)]
  }

  /** Different numbers are written differently. */
  lemma {:induction false} DecimalStringInjective(a: nat, b: nat)
    ensures DecimalString(a) == DecimalString(b) <==> a == b
  {
    var sa, sb := DecimalString(a), DecimalString(b);
    if sa == sb {
      assert a % 10 == b % 10 by {
        assert sa[|sa| - 1] == sb[|sb| - 1];
      }
      if 10 <= a && 10 <= b {
        assert DecimalString(a / 10) == sa[..|sa| - 1] == sb[..|sb| - 1] == DecimalString(b / 10);
        DecimalStringInjective(a / 10, b / 10);
      }
    }
  }

  /**
   * `TableCell.reuseIdentifierForObject`: the object's own identifier when it
   * has one; otherwise the asking cell class's name followed by the decimal
   * raw value of the object's style.
   */
  function ReuseIdentifierForObject(cellClassName: string, o: CellObject): (id: string)
    ensures o.reuseIdentifier.Some? ==> id == o.reuseIdentifier.value
    ensures o.reuseIdentifier.None? ==>
      cellClassName <= id && id[|cellClassName|..] == DecimalString(o.cellStyle.RawValue())
  {
    match o.reuseIdentifier
    case Some(identifier) => identifier
    case None => cellClassName + DecimalString(o.cellStyle.RawValue())
  }

  /** The fallback identifiers of one cell class tell styles apart, and nothing else. */
  lemma FallbackSeparatesStyles(cellClassName: string, a: CellObject, b: CellObject)
    requires a.reuseIdentifier.None? && b.reuseIdentifier.None?
    ensures ReuseIdentifierForObject(cellClassName, a) == ReuseIdentifierForObject(cellClassName, b)
            <==> a.cellStyle == b.cellStyle
  {
    var ia, ib := ReuseIdentifierForObject(cellClassName, a), ReuseIdentifierForObject(cellClassName, b);
    if ia == ib {
      assert ia[|cellClassName|..] == ib[|cellClassName|..];
      DecimalStringInjective(a.cellStyle.RawValue(), b.cellStyle.RawValue());
      RawValueInjective(a.cellStyle, b.cellStyle);
    }
  }

  /** A `TableItem` is always identified by the fallback, with the default style's digit. */
  lemma TableItemIdentifier(cellClassName: string)
    ensures ReuseIdentifierForObject(cellClassName, TableItem()) == cellClassName + "0"
  {
    assert DecimalString(0) == "0";
  }

  /** `TableCell`: the cell remembers the last object it was updated with. */
  class TableCell {
    var item: Option<CellObject>

    constructor ()
      ensures item == None
    {
      item := None;
    }

    /** `updateWithObject`: stores the object and always reports success. */
    method UpdateWithObject(o: CellObject) returns (updated: bool)
      modifies this
      ensures item == Some(o)
      ensures updated
    {
      item := Some(o);
      updated := true;
    }
  }
}
