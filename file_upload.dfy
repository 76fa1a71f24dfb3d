/**
 * The file uploader (dm-project-front/src/components/ui/file-upload.tsx): the selected files,
 * the keyboard selection among them, dropping new files up to `maxFiles`, and the "limit of
 * files" flag.
 */
module FileUpload {
  import opened Wrappers
  import opened Seqs

  datatype File = File(name: string, size: nat)

  datatype Orientation = Horizontal | Vertical
  datatype Direction = Ltr | Rtl

  /** `dir === "rtl" ? "rtl" : "ltr"`. */
  function DirectionOf(dir: Option<string>): (d: Direction)
    ensures d == Rtl <==> dir == Some("rtl")
  {
    if dir == Some("rtl") then Rtl else Ltr
  }

  /** `maxFiles === 1 ? true : reSelect`. */
  function ReSelectAll(maxFiles: nat, reSelect: bool): (r: bool)
    ensures r <==> maxFiles == 1 || reSelect
  {
    if maxFiles == 1 then true else reSelect
  }

  // ---------------------------------------------------------------------------------------
  // Keyboard selection
  // ---------------------------------------------------------------------------------------

  /** The key that selects the next file. */
  function NextKey(o: Orientation, d: Direction): (k: string)
    ensures o == Vertical ==> k == "ArrowDown"
    ensures o == Horizontal && d == Ltr ==> k == "ArrowRight"
    ensures o == Horizontal && d == Rtl ==> k == "ArrowLeft"
  {
    if o == Horizontal then (if d == Ltr then "ArrowRight" else "ArrowLeft") else "ArrowDown"
  }

  /** The key that selects the previous file. */
  function PrevKey(o: Orientation, d: Direction): (k: string)
    ensures o == Vertical ==> k == "ArrowUp"
    ensures o == Horizontal && d == Ltr ==> k == "ArrowLeft"
    ensures o == Horizontal && d == Rtl ==> k == "ArrowRight"
  {
    if o == Horizontal then (if d == Ltr then "ArrowLeft" else "ArrowRight") else "ArrowUp"
  }

  /** Right-to-left swaps the horizontal keys, and the two keys never coincide. */
  lemma KeysMirror(o: Orientation)
    ensures NextKey(o, Ltr) != PrevKey(o, Ltr) && NextKey(o, Rtl) != PrevKey(o, Rtl)
    ensures o == Horizontal ==> NextKey(o, Rtl) == PrevKey(o, Ltr) && PrevKey(o, Rtl) == NextKey(o, Ltr)
  {
  }

  /** `moveNext`: one forward, from the last file back to the first. */
  function MoveNext(activeIndex: int, count: nat): (i: int)
    ensures activeIndex + 1 > count - 1 ==> i == 0
    ensures activeIndex + 1 <= count - 1 ==> i == activeIndex + 1
  {
    if activeIndex + 1 > count - 1 then 0 else activeIndex + 1
  }

  /** `movePrev`: one back, from the first file (or none) to the last. */
  function MovePrev(activeIndex: int, count: int): (i: int)
    ensures activeIndex - 1 < 0 ==> i == count - 1
    ensures activeIndex - 1 >= 0 ==> i == activeIndex - 1
  {
    if activeIndex - 1 < 0 then count - 1 else activeIndex - 1
  }

  /** A selection: none (-1) or a file of the list. */
  predicate Selection(activeIndex: int, count: nat) {
    activeIndex == -1 || 0 <= activeIndex < count
  }

  /** Over a non-empty list, stepping either way from a selection lands on a file. */
  lemma MovesStayInList(activeIndex: int, count: nat)
    requires count > 0 && Selection(activeIndex, count)
    ensures 0 <= MoveNext(activeIndex, count) < count
    ensures 0 <= MovePrev(activeIndex, count) < count
  {
  }

  /** Within a list, stepping back undoes stepping forward, and forward undoes back. */
  lemma MovesInverse(activeIndex: int, count: nat)
    requires 0 <= activeIndex < count
    ensures MovePrev(MoveNext(activeIndex, count), count) == activeIndex
    ensures MoveNext(MovePrev(activeIndex, count), count) == activeIndex
  {
  }

  /** `removeFileFromSet`: the list without the file at `i`, the rest in order. */
  function RemoveAt(files: seq<File>, i: int): (r: seq<File>)
    ensures 0 <= i < |files| ==> r == files[..i] + files[i + 1..]
    ensures !(0 <= i < |files|) ==> r == files
  {
    if 0 <= i < |files| then files[..i] + files[i + 1..] else files
  }

  /**
   * Delete or Backspace as written: the file goes, then `movePrev` runs against the length
   * the list had before the deletion.
   */
  function DeleteAsWritten(files: seq<File>, activeIndex: int): (seq<File>, int) {
    if activeIndex == -1 then (files, activeIndex)
    else
      var remaining := RemoveAt(files, activeIndex);
      if |files| - 1 == 0 then (remaining, -1) else (remaining, MovePrev(activeIndex, |files|))
  }

  /** Deleting the first of two or more files selects an index past the end of the new list. */
  lemma DeleteFirstSelectsPastEnd(files: seq<File>)
    requires |files| >= 2
    ensures var (remaining, index) := DeleteAsWritten(files, 0);
      |remaining| == |files| - 1 && index == |remaining| && !Selection(index, |remaining|)
  {
  }

  /**
   * Delete or Backspace as evidently intended: the file goes, then the selection steps back
   * within the list that remains, and is cleared once the list is empty.
   */
  function DeleteSelected(files: seq<File>, activeIndex: int): (r: (seq<File>, int))
    ensures r.0 == (if activeIndex == -1 then files else RemoveAt(files, activeIndex))
    ensures activeIndex != -1 && |files| == 1 ==> r.1 == -1
  {
    if activeIndex == -1 then (files, activeIndex)
    else
      var remaining := RemoveAt(files, activeIndex);
      if |files| - 1 == 0 then (remaining, -1) else (remaining, MovePrev(activeIndex, |files| - 1))
  }

  /**
   * Deleting the selected file leaves a selection of the remaining list: the file before it,
   * or the last one when the first was deleted, or none when no file remains.
   */
  lemma DeleteKeepsSelection(files: seq<File>, activeIndex: int)
    requires 0 <= activeIndex < |files|
    ensures var (remaining, index) := DeleteSelected(files, activeIndex);
      && |remaining| == |files| - 1
      && Selection(index, |remaining|)
      && (|remaining| == 0 <==> index == -1)
      && (activeIndex > 0 ==> remaining[index] == files[activeIndex - 1])
      && (activeIndex == 0 && |remaining| > 0 ==> index == |remaining| - 1)
  {
  }

  /** The outcome of a key press: the list, the selection, and whether the file picker opens. */
  datatype KeyOutcome = KeyOutcome(files: Option<seq<File>>, activeIndex: int, opensPicker: bool)

  /** `handleKeyDown`, with the Delete step as intended; every key is ignored without a list. */
  function KeyStep(files: Option<seq<File>>, activeIndex: int, key: string, o: Orientation, d: Direction): KeyOutcome {
    if files.None? then KeyOutcome(files, activeIndex, false)
    else
      var count := |files.value|;
      if key == NextKey(o, d) then KeyOutcome(files, MoveNext(activeIndex, count), false)
      else if key == PrevKey(o, d) then KeyOutcome(files, MovePrev(activeIndex, count), false)
      else if key == "Enter" || key == "Space" then KeyOutcome(files, activeIndex, activeIndex == -1)
      else if key == "Delete" || key == "Backspace" then
        var (remaining, index) := DeleteSelected(files.value, activeIndex);
        KeyOutcome(Some(remaining), index, false)
      else if key == "Escape" then KeyOutcome(files, -1, false)
      else KeyOutcome(files, activeIndex, false)
  }

  /** Every key keeps the selection on the list, and Escape clears it. */
  lemma KeyStepKeepsSelection(files: seq<File>, activeIndex: int, key: string, o: Orientation, d: Direction)
    requires |files| > 0 && Selection(activeIndex, |files|)
    ensures var out := KeyStep(Some(files), activeIndex, key, o, d);
      && out.files.Some?
      && Selection(out.activeIndex, |out.files.value|)
  {
    if key == NextKey(o, d) || key == PrevKey(o, d) {
      MovesStayInList(activeIndex, |files|);
    } else if (key == "Delete" || key == "Backspace") && activeIndex != -1 {
      DeleteKeepsSelection(files, activeIndex);
    }
  }

  // ---------------------------------------------------------------------------------------
  // Dropping files
  // ---------------------------------------------------------------------------------------

  /** The accepted files pushed one by one while the list holds fewer than `maxFiles`. */
  function DropInto(start: seq<File>, files: seq<File>, maxFiles: nat): seq<File> {
    if files == [] then start
    else
      var before := DropInto(start, files[..|files| - 1], maxFiles);
      if |before| < maxFiles then before + [files[|files| - 1]] else before
  }

  /** Room left in a list for `maxFiles`. */
  function Room(start: seq<File>, maxFiles: nat): nat {
    if |start| < maxFiles then maxFiles - |start| else 0
  }

  /** The drop keeps the list and adds the first accepted files that fit, in order. */
  lemma {:induction false} DropIntoMeaning(start: seq<File>, files: seq<File>, maxFiles: nat)
    ensures DropInto(start, files, maxFiles) == start + Prefix(files, Room(start, maxFiles))
  {
    if files != [] {
      var init := files[..|files| - 1];
      DropIntoMeaning(start, init, maxFiles);
      var room := Room(start, maxFiles);
      if |files| <= room {
        assert Prefix(files, room) == init + [files[|files| - 1]];
      } else {
        assert Prefix(files, room) == Prefix(init, room);
      }
    }
  }

  /** A drop never grows the list beyond `maxFiles`, nor shrinks one already beyond it. */
  lemma DropIntoBound(start: seq<File>, files: seq<File>, maxFiles: nat)
    ensures |DropInto(start, files, maxFiles)| == Max(|start|, Min(maxFiles, |start| + |files|))
  {
    DropIntoMeaning(start, files, maxFiles);
  }

  // ---------------------------------------------------------------------------------------
  // The component's state
  // ---------------------------------------------------------------------------------------

  class FileUploader {
    /** The files of the controlled `value`, as the parent stores what the uploader hands it. */
    var value: Option<seq<File>>
    var activeIndex: int
    var isLOF: bool
    const maxFiles: nat
    const reSelectAll: bool
    const orientation: Orientation
    const direction: Direction

    constructor(value: Option<seq<File>>, maxFiles: nat, reSelect: bool, orientation: Orientation, dir: Option<string>)
      ensures this.value == value && this.activeIndex == -1 && !this.isLOF
      ensures this.maxFiles == maxFiles && this.reSelectAll == ReSelectAll(maxFiles, reSelect)
      ensures this.orientation == orientation && this.direction == DirectionOf(dir)
    {
      this.value := value;
      this.activeIndex := -1;
      this.isLOF := false;
      this.maxFiles := maxFiles;
      this.reSelectAll := maxFiles == 1 || reSelect;
      this.orientation := orientation;
      this.direction := DirectionOf(dir);
    }

    /** `removeFileFromSet`: nothing without a list. */
    method RemoveFileFromSet(i: int)
      modifies this
      ensures old(value).None? ==> value == old(value)
      ensures old(value).Some? ==> value == Some(RemoveAt(old(value).value, i))
      ensures activeIndex == old(activeIndex) && isLOF == old(isLOF)
    {
      if value.None? {
        return;
      }
      value := Some(RemoveAt(value.value, i));
    }

    /** `handleKeyDown`. */
    method HandleKeyDown(key: string) returns (opensPicker: bool)
      modifies this
      ensures var out := KeyStep(old(value), old(activeIndex), key, orientation, direction);
        value == out.files && activeIndex == out.activeIndex && opensPicker == out.opensPicker
      ensures isLOF == old(isLOF)
    {
      opensPicker := false;
      if value.None? {
        return;
      }
      var count := |value.value|;
      if key == NextKey(orientation, direction) {
        activeIndex := if activeIndex + 1 > count - 1 then 0 else activeIndex + 1;
      } else if key == PrevKey(orientation, direction) {
        activeIndex := if activeIndex - 1 < 0 then count - 1 else activeIndex - 1;
      } else if key == "Enter" || key == "Space" {
        opensPicker := activeIndex == -1;
      } else if key == "Delete" || key == "Backspace" {
        if activeIndex != -1 {
          RemoveFileFromSet(activeIndex);
          if count - 1 == 0 {
            activeIndex := -1;
            return;
          }
          activeIndex := MovePrev(activeIndex, count - 1);
        }
      } else if key == "Escape" {
        activeIndex := -1;
      }
    }

    /** `onDrop`: no accepted list changes nothing; otherwise the capped list replaces `value`. */
    method OnDrop(accepted: Option<seq<File>>)
      modifies this
      ensures accepted.None? ==> value == old(value)
      ensures accepted.Some? ==>
        value == Some(DropInto(if reSelectAll then [] else old(value).GetOr([]), accepted.value, maxFiles))
      ensures activeIndex == old(activeIndex) && isLOF == old(isLOF)
    {
      if accepted.None? {
        return;
      }
      var files := accepted.value;
      var newValues := if value.Some? then value.value else [];
      if reSelectAll {
        newValues := [];
      }
      ghost var start := newValues;
      for i := 0 to |files|
        invariant newValues == DropInto(start, files[..i], maxFiles)
      {
        assert files[..i + 1][..i] == files[..i];
        if |newValues| < maxFiles {
          newValues := newValues + [files[i]];
        }
      }
      assert files[..|files|] == files;
      value := Some(newValues);
    }

    /** The `isLOF` effect: the list is full exactly when it holds `maxFiles` files. */
    method SyncLimit()
      modifies this
      ensures old(value).None? ==> isLOF == old(isLOF)
      ensures old(value).Some? ==> (isLOF <==> |old(value).value| == maxFiles)
      ensures value == old(value) && activeIndex == old(activeIndex)
    {
      if value.None? {
        return;
      }
      isLOF := |value.value| == maxFiles;
    }
  }
}
