/** The state of the App component in App.tsx and the handlers that update
    it: scanning a folder, toggling a like, clearing the selection and
    copying the selected names. */
module App {
  import opened Wrappers
  import opened Types
  import opened Selection

  /** What the folder lister produced for the scanned reference: the files,
      or the message of the error it threw. */
  datatype ScanOutcome = Found(files: seq<DriveFile>) | Failed(message: string)

  const NoImagesMessage: string :=
    "AI không tìm thấy ảnh nào. Hãy đảm bảo thư mục đang ở chế độ công khai."

  class Gallery {
    /** The text of the folder-link box. */
    var folderInput: string
    /** The files of the last successful scan, shown in the grid. */
    var files: seq<DriveFile>
    /** A scan is in flight; the scan button is disabled meanwhile. */
    var loading: bool
    /** The error banner, if any. */
    var error: Option<string>
    /** The liked file names, in the order they were liked. */
    var selected: seq<string>

    /** The state on first render, before anything is restored. */
    constructor ()
      ensures folderInput == "" && files == [] && !loading && error == None && selected == []
    {
      folderInput := "";
      files := [];
      loading := false;
      error := None;
      selected := [];
    }

    /** Typing into the folder-link box. */
    method SetFolderInput(text: string)
      modifies this
      ensures folderInput == text
      ensures files == old(files) && loading == old(loading) && error == old(error)
      ensures selected == old(selected)
    {
      folderInput := text;
    }

    /** `toggle(name)`: flips whether `name` is liked. */
    method Toggle(name: string)
      modifies this
      ensures selected == Toggled(old(selected), name)
      ensures name in selected <==> name !in old(selected)
      ensures forall x :: x != name ==> (x in selected <==> x in old(selected))
      ensures Distinct(old(selected)) ==> Distinct(selected)
      ensures folderInput == old(folderInput) && files == old(files)
      ensures loading == old(loading) && error == old(error)
    {
      ToggleKeepsDistinct(selected, name);
      selected := Toggled(selected, name);
    }

    /** The trash button: `confirmed` is the user's answer to the
        confirmation prompt; only a yes empties the selection. */
    method ClearSelection(confirmed: bool)
      modifies this
      ensures confirmed ==> selected == []
      ensures !confirmed ==> selected == old(selected)
      ensures folderInput == old(folderInput) && files == old(files)
      ensures loading == old(loading) && error == old(error)
    {
      if confirmed {
        selected := [];
      }
    }

    /** `copyList`: the text put on the clipboard. */
    method CopyList() returns (text: string)
      ensures text == CopyText(selected)
      ensures selected == [] ==> text == ""
    {
      text := CopyText(selected);
    }

    /** The part of `handleScan` before the lister is awaited. With an empty
        link box nothing happens and nothing is requested; otherwise the
        scan starts: `loading` is set and the error banner cleared. */
    method BeginScan() returns (request: Option<string>)
      modifies this
      ensures old(folderInput) == "" ==> request == None
      ensures old(folderInput) == "" ==> loading == old(loading) && error == old(error)
      ensures old(folderInput) != "" ==> request == Some(folderInput)
      ensures old(folderInput) != "" ==> loading && error == None
      ensures folderInput == old(folderInput) && files == old(files) && selected == old(selected)
    {
      if folderInput == "" {
        request := None;
      } else {
        loading := true;
        error := None;
        request := Some(folderInput);
      }
    }

    /** The part of `handleScan` after the lister answered: a list replaces
        the grid's files and an empty one raises the "no images" banner; a
        failure shows its message and keeps the files. Either way the scan
        is over. */
    method EndScan(outcome: ScanOutcome)
      modifies this
      ensures !loading
      ensures outcome.Found? ==> files == outcome.files
      ensures outcome.Found? && outcome.files == [] ==> error == Some(NoImagesMessage)
      ensures outcome.Found? && outcome.files != [] ==> error == old(error)
      ensures outcome.Failed? ==> files == old(files) && error == Some(outcome.message)
      ensures folderInput == old(folderInput) && selected == old(selected)
    {
      match outcome {
        case Found(data) =>
          files := data;
          if |data| == 0 {
            error := Some(NoImagesMessage);
          }
        case Failed(message) =>
          error := Some(message);
      }
      loading := false;
    }

    /** `handleScan` as a whole, with `outcome` standing for what the lister
        yields for the current link box. */
    method Scan(outcome: ScanOutcome)
      modifies this
      ensures old(folderInput) == "" ==>
                files == old(files) && loading == old(loading) && error == old(error)
      ensures old(folderInput) != "" ==> !loading
      ensures old(folderInput) != "" && outcome.Found? ==>
                files == outcome.files
                && error == (if outcome.files == [] then Some(NoImagesMessage) else None)
      ensures old(folderInput) != "" && outcome.Failed? ==>
                files == old(files) && error == Some(outcome.message)
      ensures folderInput == old(folderInput) && selected == old(selected)
    {
      var request := BeginScan();
      if request.Some? {
        EndScan(outcome);
      }
    }
  }
}
