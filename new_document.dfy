/** The hierarchy picker of the new document page: the folder list is shown in two columns
    and a confirmed selection becomes the document's hierarchy. */
module NewDocument {
  import opened Common

  /** `Math.ceil(n / 2)` for a list length. */
  function MidPoint(n: nat): (m: nat)
    ensures 2 * m == n || 2 * m == n + 1
  {
    (n + 1) / 2
  }

  /** What `renderFolderList` shows once loading is over: the "no folders" message, or the
      folders split into a left and a right column. */
  datatype FolderView = NoFolders | Columns(left: seq<string>, right: seq<string>)

  function RenderFolderList(folders: seq<string>): (v: FolderView)
    ensures v == NoFolders <==> folders == []
    ensures v.Columns? ==> v.left == folders[..MidPoint(|folders|)] && v.right == folders[MidPoint(|folders|)..]
  {
    if folders == [] then NoFolders
    else
      var mid := MidPoint(|folders|);
      Columns(folders[..mid], folders[mid..])
  }

  /** The two columns put back together are the folder list, and the left column is as long
      as the right one or one longer. */
  lemma ColumnsPartition(folders: seq<string>)
    requires folders != []
    ensures RenderFolderList(folders).left + RenderFolderList(folders).right == folders
    ensures |RenderFolderList(folders).left| == |RenderFolderList(folders).right|
            || |RenderFolderList(folders).left| == |RenderFolderList(folders).right| + 1
  {
    var v := RenderFolderList(folders);
    assert v.left + v.right == folders[..MidPoint(|folders|)] + folders[MidPoint(|folders|)..];
  }

  /** Every folder appears in exactly one column, at its place in the list. */
  lemma ColumnPositions(folders: seq<string>, i: nat)
    requires i < |folders|
    ensures var v := RenderFolderList(folders);
            if i < |v.left| then v.left[i] == folders[i] else v.right[i - |v.left|] == folders[i]
  {
  }

  class NewDocumentPage {
    var hierarchy: string
    var isHierarchyModalOpen: bool
    var selectedFolder: Option<string>
    var folders: seq<string>

    constructor ()
      ensures hierarchy == "" && !isHierarchyModalOpen && selectedFolder == None && folders == []
    {
      hierarchy, isHierarchyModalOpen, selectedFolder, folders := "", false, None, [];
    }

    /** `handleSelectFolder`: only the selection changes. */
    method HandleSelectFolder(folder: string)
      modifies this`selectedFolder
      ensures selectedFolder == Some(folder)
    {
      selectedFolder := Some(folder);
    }

    /** `handleConfirmHierarchy`: a truthy selection (a non-empty name) becomes the hierarchy
      and closes the modal; with none, or the empty name, nothing changes. */
    method HandleConfirmHierarchy()
      modifies this`hierarchy, this`isHierarchyModalOpen
      ensures Truthy(old(selectedFolder)) ==> hierarchy == old(selectedFolder).value && !isHierarchyModalOpen
      ensures !Truthy(old(selectedFolder)) ==> hierarchy == old(hierarchy) && isHierarchyModalOpen == old(isHierarchyModalOpen)
    {
      if Truthy(selectedFolder) {
        hierarchy := selectedFolder.value;
        isHierarchyModalOpen := false;
      }
    }
  }
}
