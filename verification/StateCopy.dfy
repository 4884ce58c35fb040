/**
 * The three copies of its state that a column or workspace keeps, and how one
 * is copied over another: column_copy_state of src/tree/column.c and
 * workspace_copy_state of src/tree/workspace.c. The structs are copied whole,
 * but each keeps its own lists, so that an edit to one copy never shows in
 * another. Windows and columns are named by numbers here.
 */
module StateCopy {
  import opened Lists

  datatype Box = Box(x: int, y: int, width: int, height: int)

  /** The plain members of struct hwd_column_state. */
  datatype ColumnFields = ColumnFields(
    x: real, y: real, width: real, height: real, isFirstChild: bool, isLastChild: bool,
    showPreview: bool, previewTarget: nat, previewBox: Box, dead: bool)

  datatype ColumnValue = ColumnValue(fields: ColumnFields, children: seq<nat>)

  /** No memory in common. */
  ghost predicate Apart(a: List<nat>, b: List<nat>)
    reads a, b
  {
    a != b && a.items != b.items
  }

  class ColumnState {
    var fields: ColumnFields
    var children: List<nat>

    ghost predicate Valid()
      reads this, children
    {
      children.Valid()
    }

    ghost function Value(): ColumnValue
      requires Valid()
      reads this, children, children.items
    {
      ColumnValue(fields, children.Contents())
    }

    constructor (fields: ColumnFields)
      ensures Valid() && Value() == ColumnValue(fields, []) && fresh(children) && fresh(children.items)
    {
      this.fields := fields;
      children := new List<nat>();
    }

    /** column_copy_state: everything is overwritten, then the list put back and filled. */
    method CopyFrom(src: ColumnState)
      requires Valid() && src.Valid() && src != this && Apart(children, src.children)
      modifies this, children, children.items
      ensures Valid() && src.Valid() && children == old(children)
      ensures children.items == old(children.items) || fresh(children.items)
      ensures Value() == src.Value() == old(src.Value())
    {
      var ownChildren := children;
      fields, children := src.fields, src.children;
      children := ownChildren;
      children.Clear();
      children.Cat(src.children);
    }

    /** How the arrange functions fill the pending list: cleared, then one child after the other. */
    method SetChildren(windows: seq<nat>)
      requires Valid()
      modifies children, children.items
      ensures Valid() && children == old(children)
      ensures children.items == old(children.items) || fresh(children.items)
      ensures Value() == old(Value()).(children := windows)
    {
      children.Clear();
      for i := 0 to |windows|
        invariant Valid() && fields == old(fields)
        invariant children.items == old(children.items) || fresh(children.items)
        invariant children.Contents() == windows[..i]
      {
        children.Add(windows[i]);
      }
    }
  }

  /** The three copies of one column. */
  class Column {
    const pending: ColumnState
    const committed: ColumnState
    const current: ColumnState

    /** The copies share no memory. */
    ghost predicate Valid()
      reads pending, committed, current, pending.children, committed.children, current.children
    {
      && pending != committed && pending != current && committed != current
      && pending.Valid() && committed.Valid() && current.Valid()
      && Apart(pending.children, committed.children) && Apart(pending.children, current.children)
      && Apart(committed.children, current.children)
    }

    constructor (fields: ColumnFields)
      ensures Valid()
    {
      pending := new ColumnState(fields);
      committed := new ColumnState(fields);
      current := new ColumnState(fields);
    }

    /** column_handle_transaction_commit takes the pending state; the current one is untouched. */
    method Commit()
      requires Valid()
      modifies committed, committed.children, committed.children.items
      ensures Valid() && committed.Value() == pending.Value() == old(pending.Value())
      ensures current.Value() == old(current.Value())
    {
      committed.CopyFrom(pending);
    }

    /** column_handle_transaction_apply takes the committed state; the pending one is untouched. */
    method Apply()
      requires Valid()
      modifies current, current.children, current.children.items
      ensures Valid() && current.Value() == committed.Value() == old(committed.Value())
      ensures pending.Value() == old(pending.Value())
    {
      current.CopyFrom(committed);
    }

    /** Arranging the pending state leaks into neither of the other two. */
    method Arrange(fields: ColumnFields, windows: seq<nat>)
      requires Valid()
      modifies pending, pending.children, pending.children.items
      ensures Valid() && pending.Value() == ColumnValue(fields, windows)
      ensures committed.Value() == old(committed.Value()) && current.Value() == old(current.Value())
    {
      pending.fields := fields;
      pending.SetChildren(windows);
    }

    /** A commit, arrangements in between, and the apply: what shows is what was committed. */
    method CommitArrangeApply(fields: ColumnFields, windows: seq<nat>)
      requires Valid()
      modifies pending, pending.children, pending.children.items
      modifies committed, committed.children, committed.children.items
      modifies current, current.children, current.children.items
      ensures Valid() && current.Value() == old(pending.Value())
      ensures pending.Value() == ColumnValue(fields, windows)
    {
      Commit();
      Arrange(fields, windows);
      Apply();
    }
  }

  // ---------------------------------------------------------------------
  // Workspaces
  // ---------------------------------------------------------------------

  datatype WorkspaceFields = WorkspaceFields(focused: bool, dead: bool)

  datatype WorkspaceValue = WorkspaceValue(fields: WorkspaceFields, floating: seq<nat>, columns: seq<nat>)

  class WorkspaceState {
    var fields: WorkspaceFields
    var floating: List<nat>
    var columns: List<nat>

    ghost predicate Valid()
      reads this, floating, columns
    {
      floating.Valid() && columns.Valid() && Apart(floating, columns)
    }

    ghost function Value(): WorkspaceValue
      requires Valid()
      reads this, floating, columns, floating.items, columns.items
    {
      WorkspaceValue(fields, floating.Contents(), columns.Contents())
    }

    constructor ()
      ensures Valid() && Value() == WorkspaceValue(WorkspaceFields(false, false), [], [])
      ensures fresh(floating) && fresh(floating.items) && fresh(columns) && fresh(columns.items)
    {
      fields := WorkspaceFields(false, false);
      floating := new List<nat>();
      columns := new List<nat>();
    }

    /** workspace_copy_state, with both lists. */
    method CopyFrom(src: WorkspaceState)
      requires Valid() && src.Valid() && src != this
      requires Apart(floating, src.floating) && Apart(floating, src.columns)
      requires Apart(columns, src.floating) && Apart(columns, src.columns)
      modifies this, floating, columns, floating.items, columns.items
      ensures Valid() && src.Valid() && floating == old(floating) && columns == old(columns)
      ensures floating.items == old(floating.items) || fresh(floating.items)
      ensures columns.items == old(columns.items) || fresh(columns.items)
      ensures Value() == src.Value() == old(src.Value())
    {
      var ownFloating, ownColumns := floating, columns;
      fields, floating, columns := src.fields, src.floating, src.columns;
      floating := ownFloating;
      floating.Clear();
      floating.Cat(src.floating);
      columns := ownColumns;
      columns.Clear();
      columns.Cat(src.columns);
    }
  }

  /** Two states of a workspace have no list in common. */
  ghost predicate StatesApart(a: WorkspaceState, b: WorkspaceState)
    reads a, b, a.floating, a.columns, b.floating, b.columns
  {
    && a != b && Apart(a.floating, b.floating) && Apart(a.floating, b.columns)
    && Apart(a.columns, b.floating) && Apart(a.columns, b.columns)
  }

  class Workspace {
    const pending: WorkspaceState
    const committed: WorkspaceState
    const current: WorkspaceState

    ghost predicate Valid()
      reads pending, committed, current, pending.floating, committed.floating, current.floating
      reads pending.columns, committed.columns, current.columns
    {
      && pending.Valid() && committed.Valid() && current.Valid()
      && StatesApart(pending, committed) && StatesApart(pending, current) && StatesApart(committed, current)
    }

    constructor ()
      ensures Valid()
    {
      pending := new WorkspaceState();
      committed := new WorkspaceState();
      current := new WorkspaceState();
    }

    method Commit()
      requires Valid()
      modifies committed, committed.floating, committed.columns, committed.floating.items, committed.columns.items
      ensures Valid() && committed.Value() == pending.Value() == old(pending.Value())
      ensures current.Value() == old(current.Value())
    {
      committed.CopyFrom(pending);
    }

    method Apply()
      requires Valid()
      modifies current, current.floating, current.columns, current.floating.items, current.columns.items
      ensures Valid() && current.Value() == committed.Value() == old(committed.Value())
      ensures pending.Value() == old(pending.Value())
    {
      current.CopyFrom(committed);
    }
  }
}
