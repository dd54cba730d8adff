/**
 * The undo record for one item property (GimpItemPropUndo). On
 * construction it saves the property its undo type selects; each pop puts
 * the saved value back on the item and saves the value the item had, so a
 * first pop undoes and a second one redoes.
 */
module ItemPropUndo {
  import opened Wrappers
  import opened Items

  datatype UndoType =
    | ItemReorder | ItemRename | ItemDisplace | ItemVisibility | ItemColorTag
    | ItemLockContent | ItemLockPosition | ItemLockVisibility
    | ParasiteAttach | ParasiteRemove
    | OtherUndo(code: int)   // any undo type this record does not handle

  predicate IsParasiteType(t: UndoType) {
    t == ParasiteAttach || t == ParasiteRemove
  }

  /** The record's saved fields; only the one its undo type selects is used. */
  datatype Saved = Saved(
    parent: Option<Item>, position: int, name: Option<string>,
    offsetX: int, offsetY: int,
    visible: bool, colorTag: ColorTag,
    lockContent: bool, lockPosition: bool, lockVisibility: bool,
    parasite: Option<Parasite>)

  /** A freshly allocated record: every field zero or NULL. */
  const EMPTY := Saved(None, 0, None, 0, 0, false, ColorTag(0), false, false, false, None)

  /** The value of one property. */
  datatype Value =
    | Place(parent: Option<Item>, position: int)
    | Named(name: Option<string>)
    | Offset(x: int, y: int)
    | Flag(on: bool)
    | Tag(tag: ColorTag)
    | Attached(parasite: Option<Parasite>)
    | NoValue

  /** The parasite filed under `name`, if any (gimp_item_parasite_find). */
  function Find(parasites: map<string, Parasite>, name: string): Option<Parasite> {
    if name in parasites then Some(parasites[name]) else None
  }

  /** The item's value of the property `kind` selects; `pname` names the parasite. */
  function Current(kind: UndoType, pname: string, st: ItemState): Value {
    match kind
    case ItemReorder => Place(st.parent, st.index)
    case ItemRename => Named(Some(st.name))
    case ItemDisplace => Offset(st.offsetX, st.offsetY)
    case ItemVisibility => Flag(st.visible)
    case ItemColorTag => Tag(st.colorTag)
    case ItemLockContent => Flag(st.lockContent)
    case ItemLockPosition => Flag(st.lockPosition)
    case ItemLockVisibility => Flag(st.lockVisibility)
    case ParasiteAttach => Attached(Find(st.parasites, pname))
    case ParasiteRemove => Attached(Find(st.parasites, pname))
    case OtherUndo(_) => NoValue
  }

  /** The record's value of the property `kind` selects. */
  function Held(kind: UndoType, rec: Saved): Value {
    match kind
    case ItemReorder => Place(rec.parent, rec.position)
    case ItemRename => Named(rec.name)
    case ItemDisplace => Offset(rec.offsetX, rec.offsetY)
    case ItemVisibility => Flag(rec.visible)
    case ItemColorTag => Tag(rec.colorTag)
    case ItemLockContent => Flag(rec.lockContent)
    case ItemLockPosition => Flag(rec.lockPosition)
    case ItemLockVisibility => Flag(rec.lockVisibility)
    case ParasiteAttach => Attached(rec.parasite)
    case ParasiteRemove => Attached(rec.parasite)
    case OtherUndo(_) => NoValue
  }

  /** The item with the selected property blanked out; two states with equal blanks differ at most there. */
  function Outside(kind: UndoType, pname: string, st: ItemState): ItemState {
    match kind
    case ItemReorder => st.(parent := None, index := 0)
    case ItemRename => st.(name := "")
    case ItemDisplace => st.(offsetX := 0, offsetY := 0)
    case ItemVisibility => st.(visible := false)
    case ItemColorTag => st.(colorTag := ColorTag(0))
    case ItemLockContent => st.(lockContent := false)
    case ItemLockPosition => st.(lockPosition := false)
    case ItemLockVisibility => st.(lockVisibility := false)
    case ParasiteAttach => st.(parasites := st.parasites - {pname})
    case ParasiteRemove => st.(parasites := st.parasites - {pname})
    case OtherUndo(_) => st
  }

  /** The record with the selected field blanked out. */
  function HeldOutside(kind: UndoType, rec: Saved): Saved {
    match kind
    case ItemReorder => rec.(parent := None, position := 0)
    case ItemRename => rec.(name := None)
    case ItemDisplace => rec.(offsetX := 0, offsetY := 0)
    case ItemVisibility => rec.(visible := false)
    case ItemColorTag => rec.(colorTag := ColorTag(0))
    case ItemLockContent => rec.(lockContent := false)
    case ItemLockPosition => rec.(lockPosition := false)
    case ItemLockVisibility => rec.(lockVisibility := false)
    case ParasiteAttach => rec.(parasite := None)
    case ParasiteRemove => rec.(parasite := None)
    case OtherUndo(_) => rec
  }

  /** The record fits its item: a renaming holds a name, a saved parasite is filed under `pname`. */
  predicate Fits(kind: UndoType, pname: string, rec: Saved) {
    (kind == ItemRename ==> rec.name.Some?)
    && (IsParasiteType(kind) && rec.parasite.Some? ==> rec.parasite.value.name == pname)
  }

  /**
   * The record gimp_item_prop_undo_constructed fills in: the selected
   * property as the item holds it, every other field left zero.
   */
  function Snapshot(kind: UndoType, pname: string, st: ItemState): (r: Saved)
    requires Keyed(st.parasites)
    ensures Held(kind, r) == Current(kind, pname, st)
    ensures HeldOutside(kind, r) == HeldOutside(kind, EMPTY)
    ensures Fits(kind, pname, r)
  {
    match kind
    case ItemReorder => EMPTY.(parent := st.parent, position := st.index)
    case ItemRename => EMPTY.(name := Some(st.name))
    case ItemDisplace => EMPTY.(offsetX := st.offsetX, offsetY := st.offsetY)
    case ItemVisibility => EMPTY.(visible := st.visible)
    case ItemColorTag => EMPTY.(colorTag := st.colorTag)
    case ItemLockContent => EMPTY.(lockContent := st.lockContent)
    case ItemLockPosition => EMPTY.(lockPosition := st.lockPosition)
    case ItemLockVisibility => EMPTY.(lockVisibility := st.lockVisibility)
    case ParasiteAttach => EMPTY.(parasite := Find(st.parasites, pname))
    case ParasiteRemove => EMPTY.(parasite := Find(st.parasites, pname))
    case OtherUndo(_) => EMPTY
  }

  /**
   * The setter call pop makes to put the saved value back: a move to the
   * saved parent and position, a rename, a translation by saved minus
   * current offset, a flag or tag setter, or attaching the saved parasite
   * (detaching the named one when none was saved).
   */
  function PopCall(kind: UndoType, pname: string, rec: Saved, st: ItemState): (r: ItemCall)
    requires !kind.OtherUndo? && Fits(kind, pname, rec)
    ensures kind == ItemDisplace ==> r == Translate(rec.offsetX - st.offsetX, rec.offsetY - st.offsetY)
    ensures IsParasiteType(kind) ==> (r.AttachParasite? <==> rec.parasite.Some?)
    ensures IsParasiteType(kind) && r.DetachParasite? ==> r.parasiteName == pname
  {
    match kind
    case ItemReorder => Reorder(rec.parent, rec.position)
    case ItemRename => Rename(rec.name.value)
    case ItemDisplace => Translate(rec.offsetX - st.offsetX, rec.offsetY - st.offsetY)
    case ItemVisibility => SetVisible(rec.visible)
    case ItemColorTag => SetColorTag(rec.colorTag)
    case ItemLockContent => SetLockContent(rec.lockContent)
    case ItemLockPosition => SetLockPosition(rec.lockPosition)
    case ItemLockVisibility => SetLockVisibility(rec.lockVisibility)
    case ParasiteAttach => if rec.parasite.Some? then AttachParasite(rec.parasite.value) else DetachParasite(pname)
    case ParasiteRemove => if rec.parasite.Some? then AttachParasite(rec.parasite.value) else DetachParasite(pname)
  }

  /** The item after a pop. */
  function PopItem(kind: UndoType, pname: string, rec: Saved, st: ItemState): ItemState
    requires !kind.OtherUndo? && Fits(kind, pname, rec)
  {
    Apply(st, PopCall(kind, pname, rec, st))
  }

  /** The record after a pop: the item's value from before the pop, in place of the saved one. */
  function PopRecord(kind: UndoType, pname: string, rec: Saved, st: ItemState): Saved
    requires Keyed(st.parasites)
  {
    match kind
    case ItemReorder => rec.(parent := st.parent, position := st.index)
    case ItemRename => rec.(name := Some(st.name))
    case ItemDisplace => rec.(offsetX := st.offsetX, offsetY := st.offsetY)
    case ItemVisibility => rec.(visible := st.visible)
    case ItemColorTag => rec.(colorTag := st.colorTag)
    case ItemLockContent => rec.(lockContent := st.lockContent)
    case ItemLockPosition => rec.(lockPosition := st.lockPosition)
    case ItemLockVisibility => rec.(lockVisibility := st.lockVisibility)
    case ParasiteAttach => rec.(parasite := Find(st.parasites, pname))
    case ParasiteRemove => rec.(parasite := Find(st.parasites, pname))
    case OtherUndo(_) => rec
  }

  /** The item side of a pop for the kinds with a single value: the saved value is set, nothing else changes. */
  lemma PopSetsScalar(kind: UndoType, pname: string, rec: Saved, st: ItemState)
    requires !kind.OtherUndo? && !IsParasiteType(kind) && Fits(kind, pname, rec)
    ensures Current(kind, pname, PopItem(kind, pname, rec, st)) == Held(kind, rec)
    ensures Outside(kind, pname, PopItem(kind, pname, rec, st)) == Outside(kind, pname, st)
  {
    match kind
    case ItemReorder =>
    case ItemRename =>
    case ItemDisplace =>
    case ItemVisibility =>
    case ItemColorTag =>
    case ItemLockContent =>
    case ItemLockPosition =>
    case ItemLockVisibility =>
  }

  /**
   * The item side of a pop for parasites: the saved parasite is attached, or
   * the named one detached when none was saved; other parasites stay.
   */
  lemma PopSetsParasite(kind: UndoType, pname: string, rec: Saved, st: ItemState)
    requires IsParasiteType(kind) && Fits(kind, pname, rec) && Keyed(st.parasites)
    ensures Current(kind, pname, PopItem(kind, pname, rec, st)) == Held(kind, rec)
    ensures Outside(kind, pname, PopItem(kind, pname, rec, st)) == Outside(kind, pname, st)
    ensures Keyed(PopItem(kind, pname, rec, st).parasites)
  {
    var after := PopItem(kind, pname, rec, st);
    assert after == st.(parasites := after.parasites);
    if rec.parasite.Some? {
      assert after.parasites == st.parasites[pname := rec.parasite.value];
    } else {
      assert after.parasites == st.parasites - {pname};
    }
    assert after.parasites - {pname} == st.parasites - {pname};
  }

  /** The record side of a pop: it saves the item's value, nothing else of it changes. */
  lemma PopSaves(kind: UndoType, pname: string, rec: Saved, st: ItemState)
    requires Fits(kind, pname, rec) && Keyed(st.parasites)
    ensures Held(kind, PopRecord(kind, pname, rec, st)) == Current(kind, pname, st)
    ensures HeldOutside(kind, PopRecord(kind, pname, rec, st)) == HeldOutside(kind, rec)
    ensures Fits(kind, pname, PopRecord(kind, pname, rec, st))
  {
    match kind
    case ItemReorder =>
    case ItemRename =>
    case ItemDisplace =>
    case ItemVisibility =>
    case ItemColorTag =>
    case ItemLockContent =>
    case ItemLockPosition =>
    case ItemLockVisibility =>
    case ParasiteAttach =>
    case ParasiteRemove =>
    case OtherUndo(_) =>
  }

  /**
   * A pop swaps: the item's selected property becomes the saved value and
   * nothing else of the item changes; the record saves the item's old value
   * and nothing else of the record changes.
   */
  lemma PopSwaps(kind: UndoType, pname: string, rec: Saved, st: ItemState)
    requires !kind.OtherUndo? && Fits(kind, pname, rec) && Keyed(st.parasites)
    ensures Current(kind, pname, PopItem(kind, pname, rec, st)) == Held(kind, rec)
    ensures Outside(kind, pname, PopItem(kind, pname, rec, st)) == Outside(kind, pname, st)
    ensures Held(kind, PopRecord(kind, pname, rec, st)) == Current(kind, pname, st)
    ensures HeldOutside(kind, PopRecord(kind, pname, rec, st)) == HeldOutside(kind, rec)
    ensures Fits(kind, pname, PopRecord(kind, pname, rec, st)) && Keyed(PopItem(kind, pname, rec, st).parasites)
  {
    if IsParasiteType(kind) {
      PopSetsParasite(kind, pname, rec, st);
    } else {
      PopSetsScalar(kind, pname, rec, st);
    }
    PopSaves(kind, pname, rec, st);
  }

  /** An item state is determined by the selected property and everything outside it. */
  lemma {:induction false} ItemDeterminedBy(kind: UndoType, pname: string, a: ItemState, b: ItemState)
    requires !kind.OtherUndo? && Keyed(a.parasites) && Keyed(b.parasites)
    requires Current(kind, pname, a) == Current(kind, pname, b)
    requires Outside(kind, pname, a) == Outside(kind, pname, b)
    ensures a == b
  {
    if IsParasiteType(kind) {
      var ma, mb := a.parasites, b.parasites;
      assert ma - {pname} == mb - {pname};
      assert Find(ma, pname) == Find(mb, pname);
      assert forall k :: k in ma <==> k in mb by {
        forall k ensures k in ma <==> k in mb {
          if k != pname {
            assert k in ma <==> k in ma - {pname};
            assert k in mb <==> k in mb - {pname};
          }
        }
      }
      forall k | k in ma
        ensures ma[k] == mb[k]
      {
        if k != pname {
          assert ma[k] == (ma - {pname})[k];
          assert mb[k] == (mb - {pname})[k];
        }
      }
      assert ma == mb;
      assert a == Outside(kind, pname, a).(parasites := ma);
      assert b == Outside(kind, pname, b).(parasites := mb);
    } else {
      match kind
      case ItemReorder =>
      case ItemRename =>
      case ItemDisplace =>
      case ItemVisibility =>
      case ItemColorTag =>
      case ItemLockContent =>
      case ItemLockPosition =>
      case ItemLockVisibility =>
    }
  }

  /** A record is determined by its selected field and everything outside it. */
  lemma RecordDeterminedBy(kind: UndoType, a: Saved, b: Saved)
    requires !kind.OtherUndo?
    requires Held(kind, a) == Held(kind, b)
    requires HeldOutside(kind, a) == HeldOutside(kind, b)
    ensures a == b
  {
    match kind
    case ItemReorder =>
    case ItemRename =>
    case ItemDisplace =>
    case ItemVisibility =>
    case ItemColorTag =>
    case ItemLockContent =>
    case ItemLockPosition =>
    case ItemLockVisibility =>
    case ParasiteAttach =>
    case ParasiteRemove =>
  }

  /**
   * Popping twice restores both the item and the record: redo undoes the
   * undo.
   */
  lemma {:induction false} PopTwice(kind: UndoType, pname: string, rec: Saved, st: ItemState)
    requires !kind.OtherUndo? && Fits(kind, pname, rec) && Keyed(st.parasites)
    ensures var st1, rec1 := PopItem(kind, pname, rec, st), PopRecord(kind, pname, rec, st);
      Fits(kind, pname, rec1) && Keyed(st1.parasites)
      && PopItem(kind, pname, rec1, st1) == st
      && PopRecord(kind, pname, rec1, st1) == rec
  {
    PopSwaps(kind, pname, rec, st);
    var st1, rec1 := PopItem(kind, pname, rec, st), PopRecord(kind, pname, rec, st);
    PopSwaps(kind, pname, rec1, st1);
    ItemDeterminedBy(kind, pname, PopItem(kind, pname, rec1, st1), st);
    RecordDeterminedBy(kind, PopRecord(kind, pname, rec1, st1), rec);
  }

  /** Popping a record straight after it was made changes neither the item nor the record. */
  lemma {:induction false} PopAfterSnapshot(kind: UndoType, pname: string, st: ItemState)
    requires !kind.OtherUndo? && Keyed(st.parasites)
    ensures var rec := Snapshot(kind, pname, st);
      PopItem(kind, pname, rec, st) == st && PopRecord(kind, pname, rec, st) == rec
  {
    var rec := Snapshot(kind, pname, st);
    PopSwaps(kind, pname, rec, st);
    ItemDeterminedBy(kind, pname, PopItem(kind, pname, rec, st), st);
    RecordDeterminedBy(kind, PopRecord(kind, pname, rec, st), rec);
  }

  class ItemPropUndo {
    const undoType: UndoType
    const item: Item
    var parasiteName: Option<string>
    var parent: Option<Item>
    var position: int
    var name: Option<string>
    var offsetX: int
    var offsetY: int
    var visible: bool
    var colorTag: ColorTag
    var lockContent: bool
    var lockPosition: bool
    var lockVisibility: bool
    var parasite: Option<Parasite>

    function Record(): Saved
      reads this
    {
      Saved(parent, position, name, offsetX, offsetY, visible, colorTag,
            lockContent, lockPosition, lockVisibility, parasite)
    }

    /** A parasite record names its parasite, and the saved value fits the item. */
    predicate Valid()
      reads this
    {
      (IsParasiteType(undoType) ==> parasiteName.Some?)
      && Fits(undoType, parasiteName.GetOr(""), Record())
    }

    /**
     * Construction saves the selected property of the item; a parasite
     * record must be given the parasite's name. An unknown undo type saves
     * nothing.
     */
    constructor (undoType: UndoType, item: Item, parasiteName: Option<string>)
      requires IsParasiteType(undoType) ==> parasiteName.Some?
      requires Keyed(item.parasites)
      ensures this.undoType == undoType && this.item == item && this.parasiteName == parasiteName
      ensures Valid()
      ensures Record() == Snapshot(undoType, parasiteName.GetOr(""), item.State())
    {
      this.undoType, this.item, this.parasiteName := undoType, item, parasiteName;
      parent, position, name := None, 0, None;
      offsetX, offsetY := 0, 0;
      visible, colorTag := false, ColorTag(0);
      lockContent, lockPosition, lockVisibility := false, false, false;
      parasite := None;
      match undoType {
        case ItemReorder => parent, position := item.parent, item.index;
        case ItemRename => name := Some(item.name);
        case ItemDisplace => offsetX, offsetY := item.offsetX, item.offsetY;
        case ItemVisibility => visible := item.visible;
        case ItemColorTag => colorTag := item.colorTag;
        case ItemLockContent => lockContent := item.lockContent;
        case ItemLockPosition => lockPosition := item.lockPosition;
        case ItemLockVisibility => lockVisibility := item.lockVisibility;
        case ParasiteAttach => parasite := Find(item.parasites, parasiteName.value);
        case ParasiteRemove => parasite := Find(item.parasites, parasiteName.value);
        case OtherUndo(_) =>
      }
    }

    /**
     * Undo or redo: the saved value is put back on the item by one setter
     * call that pushes no undo of its own, and the item's previous value is
     * saved in its place. An unknown undo type changes nothing.
     */
    method Pop() returns (known: bool)
      requires Valid() && Keyed(item.parasites)
      modifies this`parent, this`position, this`name, this`offsetX, this`offsetY, this`visible,
               this`colorTag, this`lockContent, this`lockPosition, this`lockVisibility, this`parasite,
               item, item.image
      ensures Valid() && Keyed(item.parasites)
      ensures known <==> !undoType.OtherUndo?
      ensures known ==> var pname := parasiteName.GetOr("");
        item.State() == PopItem(undoType, pname, old(Record()), old(item.State()))
        && Record() == PopRecord(undoType, pname, old(Record()), old(item.State()))
        && item.image.calls == old(item.image.calls)
             + [OnItem(item, PopCall(undoType, pname, old(Record()), old(item.State())), false)]
      ensures !known ==> Record() == old(Record()) && item.State() == old(item.State())
                         && item.image.calls == old(item.image.calls)
    {
      if undoType.OtherUndo? {
        return false;
      }
      var pname := parasiteName.GetOr("");
      var before := item.State();
      PopSwaps(undoType, pname, Record(), before);
      var call := PopCall(undoType, pname, Record(), before);
      Store(PopRecord(undoType, pname, Record(), before));
      item.Request(call, false);
      known := true;
    }

    /** Overwrites the saved fields. */
    method Store(r: Saved)
      modifies this`parent, this`position, this`name, this`offsetX, this`offsetY, this`visible,
               this`colorTag, this`lockContent, this`lockPosition, this`lockVisibility, this`parasite
      ensures Record() == r
    {
      parent, position, name := r.parent, r.position, r.name;
      offsetX, offsetY := r.offsetX, r.offsetY;
      visible, colorTag := r.visible, r.colorTag;
      lockContent, lockPosition, lockVisibility := r.lockContent, r.lockPosition, r.lockVisibility;
      parasite := r.parasite;
    }

    /** Releases the record's name, parasite name and parasite. */
    method Free()
      modifies this`name, this`parasiteName, this`parasite
      ensures name.None? && parasiteName.None? && parasite.None?
    {
      name, parasiteName, parasite := None, None, None;
    }
  }
}
