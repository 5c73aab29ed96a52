/** The record shapes of the note manager (src/types/index.ts). */
module Types {
  import opened Wrappers

  /**
   * A directory. `children` is absent in the flat representation the backend
   * sends and present in the tree the store keeps; `expanded` is a client-only
   * flag that may be absent (and then reads as false).
   */
  datatype Directory = Directory(
    id: string,
    name: string,
    parentId: Option<string>,
    children: ChildList,
    expanded: Option<bool>)

  /** The optional `children?: Directory[]` field. */
  datatype ChildList = Absent | Present(nodes: seq<Directory>)

  /** A note. `position` orders the notes of one directory. */
  datatype Notice = Notice(
    id: string,
    directoryId: string,
    title: string,
    description: string,
    tags: seq<string>,
    position: int,
    createdAt: string,
    updatedAt: string)

  datatype SearchMode = Simple | Advanced

  /** The children of a directory, the empty list when the field is absent. */
  function Kids(d: Directory): (r: seq<Directory>)
    ensures d.children.Present? ==> r == d.children.nodes
    ensures d.children.Absent? ==> r == []
  {
    if d.children.Present? then d.children.nodes else []
  }

  /** The number of nodes of a forest; recursion over a forest decreases it. */
  function Size(f: seq<Directory>): nat
  {
    if f == [] then 0
    else 1 + (match f[0].children case Absent => 0 case Present(ks) => Size(ks)) + Size(f[1..])
  }

  /** `directory.expanded` read as a boolean: an absent flag is falsy. */
  predicate IsExpanded(d: Directory)
  {
    d.expanded == Some(true)
  }

  /** The body of `PUT /notices/{id}`: every field except the id is optional. */
  datatype NoticeUpdate = NoticeUpdate(
    id: string,
    title: Option<string>,
    description: Option<string>,
    tags: Option<seq<string>>,
    position: Option<int>)

  /** The body of `POST /notices`. */
  datatype NewNotice = NewNotice(directoryId: string, title: string, description: string, tags: seq<string>)

  /** The body of `POST /directories`. */
  datatype NewDirectory = NewDirectory(name: string, parentId: Option<string>)

  /** The body of `PUT /directories/{id}`. */
  datatype DirectoryRename = DirectoryRename(id: string, name: string)

  /** An async thunk a handler dispatches: the request it sends, whose answer a `fulfilled` reducer receives. */
  datatype Request =
    | CreateNoticeRequest(notice: NewNotice)
    | UpdateNoticeRequest(update: NoticeUpdate)
    | CreateDirectoryRequest(directory: NewDirectory)
    | UpdateDirectoryRequest(rename: DirectoryRename)
}
