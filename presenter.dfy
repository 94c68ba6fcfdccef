/** The value column the drawing pass writes for each row: the item's value
    between markers that show whether left and right do something. */
module Presenter {
  import opened Items

  function LeftMark(item: Item): string
  {
    if item.onLeft != NoAction then "<" else " "
  }

  /** The closing marker as the drawing code writes it: it tests the LEFT
      action a second time. */
  function RightMarkAsWritten(item: Item): string
  {
    if item.onLeft != NoAction then ">" else " "
  }

  function RightMark(item: Item): string
  {
    if item.onRight != NoAction then ">" else " "
  }

  function ValueCellAsWritten(item: Item, frameRate: int, vSyncCount: int): string
  {
    LeftMark(item) + " " + ValueOf(item, frameRate, vSyncCount) + " " + RightMarkAsWritten(item)
  }

  /** The value cell with the closing marker tied to the right action. */
  function ValueCell(item: Item, frameRate: int, vSyncCount: int): string
  {
    LeftMark(item) + " " + ValueOf(item, frameRate, vSyncCount) + " " + RightMark(item)
  }

  /** The corrected cell opens with '<' exactly when left does something,
      closes with '>' exactly when right does something, and shows the
      item's value in between. */
  lemma ValueCellMarks(item: Item, frameRate: int, vSyncCount: int)
    ensures var cell := ValueCell(item, frameRate, vSyncCount);
            var value := ValueOf(item, frameRate, vSyncCount);
            && |cell| == |value| + 4
            && (cell[0] == '<' <==> item.onLeft != NoAction)
            && (cell[|cell| - 1] == '>' <==> item.onRight != NoAction)
            && cell[2..|cell| - 2] == value
  {
    var cell := ValueCell(item, frameRate, vSyncCount);
    var value := ValueOf(item, frameRate, vSyncCount);
    assert cell == LeftMark(item) + " " + value + " " + RightMark(item);
    assert cell[2..|cell| - 2] == value;
  }

  /** As written, an item that acts on right only is drawn without the
      '>' marker, and one that acts on left only is drawn with it. */
  lemma RightMarkFollowsLeftAsWritten()
    ensures var rightOnly := Item("Level", Fixed("3"), NoAction, NoAction, Invoke(Host(1)));
            ValueCellAsWritten(rightOnly, 0, 0) == "  3  " && ValueCell(rightOnly, 0, 0) == "  3 >"
    ensures var leftOnly := Item("Level", Fixed("3"), NoAction, Invoke(Host(1)), NoAction);
            ValueCellAsWritten(leftOnly, 0, 0) == "< 3 >" && ValueCell(leftOnly, 0, 0) == "< 3  "
  {
  }
}
