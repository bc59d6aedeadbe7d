/** A spreadsheet as the scripts see it through pandas: an ordered list of named
    columns of cells. Only the operations the scripts use are modelled:
    column lookup (`df.columns.get_loc`), deletion (`del df[name]`), insertion
    (`df.insert`), `str()` of a cell and `dropna()`. */
module Frames {
  import opened Strings

  /** A cell: missing (`NaN`/`None`), text, or a number together with the text
      Python's `str()` prints for it (number formatting is not modelled). */
  datatype Cell = Missing | Text(s: string) | Number(value: real, shown: string)

  datatype Column = Column(name: string, cells: seq<Cell>)

  type Frame = seq<Column>

  /** Python's `str(val)` for a cell; pandas' missing value prints as `nan`. */
  function CellStr(c: Cell): string {
    match c
    case Missing => "nan"
    case Text(s) => s
    case Number(_, shown) => shown
  }

  function Names(f: Frame): (r: seq<string>)
    ensures |r| == |f|
    ensures forall k :: 0 <= k < |f| ==> r[k] == f[k].name
  {
    seq(|f|, k requires 0 <= k < |f| => f[k].name)
  }

  /** How many columns carry `name`. */
  function CountNamed(f: Frame, name: string): nat {
    if f == [] then 0 else (if f[0].name == name then 1 else 0) + CountNamed(f[1..], name)
  }

  lemma {:induction false} CountNamedZero(f: Frame, name: string)
    ensures CountNamed(f, name) == 0 <==> name !in Names(f)
  {
    if f != [] {
      CountNamedZero(f[1..], name);
      assert Names(f) == [f[0].name] + Names(f[1..]);
    }
  }

  /** `df.columns.get_loc(name)` used as an integer position: defined when the
      name labels exactly one column (an absent name raises `KeyError`; a
      repeated one yields a mask, which the callers cannot add 1 to). */
  function Locate(f: Frame, name: string): (r: Option<nat>)
    ensures r.Some? ==> r.value < |f| && f[r.value].name == name
    ensures r.Some? ==> forall k :: 0 <= k < |f| && k != r.value ==> f[k].name != name
    ensures r.Some? <==> CountNamed(f, name) == 1
  {
    if f == [] then None
    else if f[0].name == name then
      (if CountNamed(f[1..], name) == 0 then
         CountNamedZero(f[1..], name);
         assert forall k :: 1 <= k < |f| ==> f[k].name == Names(f[1..])[k - 1];
         Some(0)
       else None)
    else
      match Locate(f[1..], name)
      case None => None
      case Some(i) => Some(i + 1)
  }

  /** `if name in df.columns: del df[name]` — every column with that label goes. */
  function Drop(f: Frame, name: string): (r: Frame)
    ensures |r| <= |f|
  {
    if f == [] then []
    else (if f[0].name == name then [] else [f[0]]) + Drop(f[1..], name)
  }

  /** Exactly the columns with another label survive. */
  lemma {:induction false} DropMembers(f: Frame, name: string)
    ensures CountNamed(Drop(f, name), name) == 0
    ensures forall c :: c in Drop(f, name) <==> c in f && c.name != name
  {
    if f != [] {
      DropMembers(f[1..], name);
      assert f == [f[0]] + f[1..];
      var head := if f[0].name == name then [] else [f[0]];
      CountNamedAppend(head, Drop(f[1..], name), name);
    }
  }

  /** Dropping an absent label changes nothing. */
  lemma {:induction false} DropAbsent(f: Frame, name: string)
    requires name !in Names(f)
    ensures Drop(f, name) == f
  {
    if f != [] {
      assert Names(f)[0] == f[0].name;
      assert Names(f[1..]) == Names(f)[1..];
      DropAbsent(f[1..], name);
    }
  }

  /** After deleting the columns called `name`, a different label occurs as
      often as before and `name` not at all. */
  lemma {:induction false} CountNamedDrop(f: Frame, name: string, other: string)
    ensures CountNamed(Drop(f, name), other) == if other == name then 0 else CountNamed(f, other)
  {
    if f != [] {
      CountNamedDrop(f[1..], name, other);
      var head := if f[0].name == name then [] else [f[0]];
      CountNamedAppend(head, Drop(f[1..], name), other);
    }
  }

  lemma {:induction false} CountNamedAppend(a: Frame, b: Frame, name: string)
    ensures CountNamed(a + b, name) == CountNamed(a, name) + CountNamed(b, name)
  {
    if a != [] {
      assert (a + b)[1..] == a[1..] + b;
      CountNamedAppend(a[1..], b, name);
    } else {
      assert a + b == b;
    }
  }

  /** `df[name].dropna()`: the non-missing cells in order. */
  function DropMissing(cells: seq<Cell>): (r: seq<Cell>)
    ensures |r| <= |cells|
    ensures Missing !in r
    ensures forall c :: c in cells && c != Missing ==> c in r
    ensures forall c :: c in r ==> c in cells
  {
    if cells == [] then []
    else (if cells[0] == Missing then [] else [cells[0]]) + DropMissing(cells[1..])
  }

  /** How many of `cells` are missing. */
  function CountMissing(cells: seq<Cell>): (n: nat)
    ensures n <= |cells|
  {
    if cells == [] then 0
    else (if cells[0] == Missing then 1 else 0) + CountMissing(cells[1..])
  }

  lemma {:induction false} CountMissingAppend(a: seq<Cell>, b: seq<Cell>)
    ensures CountMissing(a + b) == CountMissing(a) + CountMissing(b)
  {
    if a != [] {
      assert (a + b)[1..] == a[1..] + b;
      CountMissingAppend(a[1..], b);
    } else {
      assert a + b == b;
    }
  }

  lemma {:induction false} DropMissingAppend(a: seq<Cell>, b: seq<Cell>)
    ensures DropMissing(a + b) == DropMissing(a) + DropMissing(b)
  {
    if a != [] {
      assert (a + b)[1..] == a[1..] + b;
      DropMissingAppend(a[1..], b);
    } else {
      assert a + b == b;
    }
  }

  /** Dropping the missing cells removes exactly the missing ones, and keeps
      every other cell in place, shifted left by the missing cells before it. */
  lemma DropMissingPositions(cells: seq<Cell>)
    ensures |DropMissing(cells)| + CountMissing(cells) == |cells|
    ensures forall i :: 0 <= i < |cells| && cells[i] != Missing ==>
      i - CountMissing(cells[..i]) < |DropMissing(cells)|
      && DropMissing(cells)[i - CountMissing(cells[..i])] == cells[i]
  {
    DropMissingCount(cells);
    forall i | 0 <= i < |cells| && cells[i] != Missing
      ensures i - CountMissing(cells[..i]) < |DropMissing(cells)|
      ensures DropMissing(cells)[i - CountMissing(cells[..i])] == cells[i]
    {
      DropMissingAt(cells, i);
    }
  }

  lemma {:induction false} DropMissingCount(cells: seq<Cell>)
    ensures |DropMissing(cells)| + CountMissing(cells) == |cells|
  {
    if cells != [] {
      DropMissingCount(cells[1..]);
    }
  }

  lemma {:induction false} DropMissingAt(cells: seq<Cell>, i: nat)
    requires i < |cells| && cells[i] != Missing
    ensures i - CountMissing(cells[..i]) < |DropMissing(cells)|
    ensures DropMissing(cells)[i - CountMissing(cells[..i])] == cells[i]
  {
    if i == 0 {
      assert cells[..0] == [];
    } else {
      var rest := cells[1..];
      DropMissingAt(rest, i - 1);
      assert rest[i - 1] == cells[i];
      CountMissingPrefix(cells, i);
    }
  }

  /** Counting the missing cells of a prefix, one head cell at a time. */
  lemma CountMissingPrefix(cells: seq<Cell>, i: nat)
    requires 0 < i <= |cells|
    ensures CountMissing(cells[..i]) == (if cells[0] == Missing then 1 else 0) + CountMissing(cells[1..][..i - 1])
  {
    assert cells[..i] == [cells[0]] + cells[1..][..i - 1];
    CountMissingAppend([cells[0]], cells[1..][..i - 1]);
    assert [cells[0]][1..] == [];
  }

  /** `.astype(str).tolist()` over cells. */
  function CellStrs(cells: seq<Cell>): (r: seq<string>)
    ensures |r| == |cells|
    ensures forall k :: 0 <= k < |cells| ==> r[k] == CellStr(cells[k])
  {
    seq(|cells|, k requires 0 <= k < |cells| => CellStr(cells[k]))
  }
}
