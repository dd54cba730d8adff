/**
 * libgimp's pattern select button: a widget that caches the selected
 * pattern (name, size, bytes per pixel and pixels), keeps at most one
 * browse session with the pattern dialog, shows the pattern in a small
 * preview and in an enlarged popup, and accepts patterns dropped on it.
 *
 * The plug-in database is an oracle. The context's current pattern name,
 * the lookup of gimp_pattern_get_pixels and the session that
 * gimp_pattern_select_new opens are parameters; the calls the button makes
 * into the database, the signals it emits and the drawings it makes are
 * logs the methods append to.
 */
module PatternSelect {
  import opened Wrappers
  import opened PatternPayload
  import opened PatternPreview

  /** The title of the browse dialog when none is given. */
  const DEFAULT_TITLE: Bytes := Ascii("Pattern Selection")

  /** The property notified after every selection. */
  const PATTERN_NAME_PROPERTY := "pattern-name"

  /** A pattern as gimp_pattern_get_pixels reports it. */
  datatype Pixels = Pixels(width: int, height: int, bytes: int, data: Bytes)

  /** The pixel buffer holds exactly width * height * bytes bytes. */
  predicate WellFormed(p: Pixels) {
    p.width >= 0 && p.height >= 0 && p.bytes >= 0 && |p.data| == p.width * p.height * p.bytes
  }

  /** gimp_pattern_get_pixels: the pixels of the named pattern, None when the lookup fails. */
  type Lookup = Bytes -> Option<Pixels>

  ghost predicate WellFormedLookup(lookup: Lookup) {
    forall name :: lookup(name).Some? ==> WellFormed(lookup(name).value)
  }

  /** g_memdup2: a copy of the first `size` bytes; NULL when size is 0. */
  function MemDup(data: Bytes, size: nat): (r: Option<Bytes>)
    requires size <= |data|
    ensures r.None? <==> size == 0
    ensures r.Some? ==> r.value == data[..size]
  {
    if size == 0 then None else Some(data[..size])
  }

  /**
   * The pattern set_pattern looks up: the given name, or the context's
   * current pattern when the name is NULL or empty.
   */
  function Resolve(name: Option<Bytes>, context: Bytes): (r: Bytes)
    ensures name.Some? && name.value != [] ==> r == name.value
    ensures name.None? || name.value == [] ==> r == context
  {
    if name.Some? && name.value != [] then name.value else context
  }

  /** The GType of a signal parameter. */
  datatype ParamType = StringType | IntType | PointerType | BooleanType

  /** A value passed to g_signal_emit. */
  datatype Arg = StringArg(s: Bytes) | IntArg(i: int) | PointerArg(p: Option<Bytes>) | BooleanArg(b: bool)

  function TypeOf(a: Arg): ParamType {
    match a
    case StringArg(_) => StringType
    case IntArg(_) => IntType
    case PointerArg(_) => PointerType
    case BooleanArg(_) => BooleanType
  }

  /** The parameters "pattern-set" is declared with: name, width, height, bpp, mask data, closing. */
  const PATTERN_SET_PARAMS: seq<ParamType> :=
    [StringType, IntType, IntType, IntType, PointerType, BooleanType]

  /** Arguments agree with the declared parameters in number and type. */
  predicate Conforms(args: seq<Arg>, params: seq<ParamType>) {
    |args| == |params| && forall k :: 0 <= k < |args| ==> TypeOf(args[k]) == params[k]
  }

  /** The arguments the selection callback emits "pattern-set" with, as written: the mask data is missing. */
  function EmittedArgs(name: Bytes, width: int, height: int, bytes: int, closing: bool): seq<Arg> {
    [StringArg(name), IntArg(width), IntArg(height), IntArg(bytes), BooleanArg(closing)]
  }

  /**
   * The emission as written does not match the declaration: one argument
   * short, and the closing flag lands in the mask-data pointer's slot.
   */
  lemma EmittedArgsMismatch(name: Bytes, width: int, height: int, bytes: int, closing: bool)
    ensures var args := EmittedArgs(name, width, height, bytes, closing);
      !Conforms(args, PATTERN_SET_PARAMS) && |args| + 1 == |PATTERN_SET_PARAMS|
      && TypeOf(args[4]) == BooleanType && PATTERN_SET_PARAMS[4] == PointerType
  {
  }

  /**
   * The arguments "pattern-set" is meant to carry: the emitted ones with
   * the mask data inserted before the closing flag.
   */
  function PatternSetArgs(name: Bytes, width: int, height: int, bytes: int,
                          mask: Option<Bytes>, closing: bool): (r: seq<Arg>)
    ensures Conforms(r, PATTERN_SET_PARAMS)
    ensures var e := EmittedArgs(name, width, height, bytes, closing);
      r == e[..4] + [PointerArg(mask)] + e[4..]
  {
    [StringArg(name), IntArg(width), IntArg(height), IntArg(bytes), PointerArg(mask), BooleanArg(closing)]
  }

  /** A call the button makes into the plug-in database. */
  datatype PdbCall =
    | SetPopup(session: Bytes, name: Option<Bytes>)   // gimp_patterns_set_popup
    | SelectNew(title: Bytes, pattern: Bytes)          // gimp_pattern_select_new

  /** A signal emission or property notification. */
  datatype Emission = PatternSet(args: seq<Arg>) | Notify(property: string)

  /** The enlarged preview shown while the first button is held on the preview. */
  datatype Popup = Popup(x: int, y: int, width: int, height: int, drawn: seq<Draw>)

  /** An event delivered to the preview; pointer positions are already whole pixels. */
  datatype Event =
    | ButtonPress(button: int, x: int, y: int)
    | ButtonRelease(button: int)
    | OtherEvent

  class PatternSelectButton {
    const title: Bytes
    var patternName: Bytes
    var width: int
    var height: int
    var bytes: int
    var maskData: Option<Bytes>
    var popup: Option<Popup>
    /** The browse dialog's callback (temp_callback); None when no dialog is open. */
    var session: Option<Bytes>
    /** What was drawn on the button's own preview. */
    var drawn: seq<Draw>
    var emitted: seq<Emission>
    var pdb: seq<PdbCall>

    /** The cached pixels hold width * height * bytes bytes, and are NULL exactly when that is 0. */
    predicate Valid()
      reads this
    {
      width >= 0 && height >= 0 && bytes >= 0
      && (maskData.Some? <==> width * height * bytes > 0)
      && (maskData.Some? ==> |maskData.value| == width * height * bytes)
      && (popup.Some? ==> popup.value.width > CELL_SIZE || popup.value.height > CELL_SIZE)
    }

    /** Nothing changed. */
    twostate predicate Kept()
      reads this
    {
      patternName == old(patternName) && width == old(width) && height == old(height)
      && bytes == old(bytes) && maskData == old(maskData) && popup == old(popup)
      && session == old(session) && drawn == old(drawn) && emitted == old(emitted) && pdb == old(pdb)
    }

    /**
     * The effect of the selection callback: the whole cached tuple replaced
     * at once, the pixels copied, the preview redrawn, the session closed
     * exactly when the dialog is closing, "pattern-set" and the
     * "pattern-name" notification emitted.
     */
    twostate predicate Took(name: Bytes, width: int, height: int, bytes: int, data: Bytes, closing: bool)
      reads this
    {
      0 <= width && 0 <= height && 0 <= bytes && width * height * bytes <= |data|
      && patternName == name && this.width == width && this.height == height && this.bytes == bytes
      && maskData == MemDup(data, width * height * bytes)
      && drawn == old(drawn) + PreviewUpdate(width, height, bytes, Some(data))
      && session == (if closing then None else old(session))
      && emitted == old(emitted) + [PatternSet(PatternSetArgs(name, width, height, bytes, Some(data), closing)),
                                    Notify(PATTERN_NAME_PROPERTY)]
      && popup == old(popup) && pdb == old(pdb)
    }

    /**
     * The effect of set_pattern: forwarded to an open session and nothing
     * else; otherwise the resolved name is looked up, and a found pattern is
     * taken as by the callback while a failed lookup changes nothing.
     */
    twostate predicate PatternSetTo(name: Option<Bytes>, context: Bytes, lookup: Lookup)
      reads this
    {
      if old(session).Some? then
        pdb == old(pdb) + [SetPopup(old(session).value, name)]
        && patternName == old(patternName) && width == old(width) && height == old(height)
        && bytes == old(bytes) && maskData == old(maskData) && popup == old(popup)
        && session == old(session) && drawn == old(drawn) && emitted == old(emitted)
      else
        var resolved := Resolve(name, context);
        match lookup(resolved)
        case None => Kept()
        case Some(p) => Took(resolved, p.width, p.height, p.bytes, p.data, false)
    }

    /**
     * A new button: the context's pattern is fetched first (zero size and no
     * pixels when that fails), the title defaults to "Pattern Selection",
     * and then the requested pattern is set as by SetPattern.
     */
    constructor (title: Option<Bytes>, name: Option<Bytes>, context: Bytes, lookup: Lookup)
      requires WellFormedLookup(lookup)
      ensures Valid()
      ensures this.title == title.GetOr(DEFAULT_TITLE)
      ensures popup.None? && session.None? && pdb == []
      ensures var resolved := Resolve(name, context);
        match lookup(resolved)
        case Some(p) =>
          patternName == resolved && width == p.width && height == p.height && bytes == p.bytes
          && maskData == MemDup(p.data, |p.data|) && drawn == PreviewUpdate(p.width, p.height, p.bytes, Some(p.data))
          && emitted == [PatternSet(PatternSetArgs(resolved, p.width, p.height, p.bytes, Some(p.data), false)),
                         Notify(PATTERN_NAME_PROPERTY)]
        case None =>
          patternName == context && drawn == [] && emitted == []
          && (lookup(context).None? ==> width == 0 && height == 0 && bytes == 0 && maskData.None?)
          && (lookup(context).Some? ==>
                width == lookup(context).value.width && height == lookup(context).value.height
                && bytes == lookup(context).value.bytes
                && maskData == MemDup(lookup(context).value.data, |lookup(context).value.data|))
    {
      this.title := title.GetOr(DEFAULT_TITLE);
      patternName := context;
      var initial := lookup(context);
      if initial.Some? {
        width, height, bytes := initial.value.width, initial.value.height, initial.value.bytes;
        maskData := MemDup(initial.value.data, |initial.value.data|);
      } else {
        width, height, bytes := 0, 0, 0;
        maskData := None;
      }
      popup, session := None, None;
      drawn, emitted, pdb := [], [], [];
      new;
      SetPattern(name, context, lookup);
    }

    /** The cached pattern name. */
    method GetPattern() returns (name: Bytes)
      ensures name == patternName
    {
      name := patternName;
    }

    /** gimp_pattern_select_button_set_pattern. */
    method SetPattern(name: Option<Bytes>, context: Bytes, lookup: Lookup)
      requires Valid() && WellFormedLookup(lookup)
      modifies this
      ensures Valid()
      ensures PatternSetTo(name, context, lookup)
    {
      if session.Some? {
        pdb := pdb + [SetPopup(session.value, name)];
      } else {
        var resolved := Resolve(name, context);
        var found := lookup(resolved);
        if found.Some? {
          Callback(resolved, found.value.width, found.value.height, found.value.bytes, found.value.data, false);
        }
      }
    }

    /** The selection callback, run by set_pattern and by the browse dialog. */
    method Callback(name: Bytes, width: int, height: int, bytes: int, data: Bytes, closing: bool)
      requires Valid()
      requires width >= 0 && height >= 0 && bytes >= 0 && width * height * bytes <= |data|
      modifies this
      ensures Valid()
      ensures Took(name, width, height, bytes, data, closing)
    {
      patternName := name;
      this.width, this.height, this.bytes := width, height, bytes;
      maskData := MemDup(data, width * height * bytes);
      drawn := drawn + PreviewUpdate(width, height, bytes, Some(data));
      if closing {
        session := None;
      }
      emitted := emitted + [PatternSet(PatternSetArgs(name, width, height, bytes, Some(data), closing)),
                            Notify(PATTERN_NAME_PROPERTY)];
    }

    /**
     * The Browse button: an open session is raised with the cached name;
     * otherwise a dialog is opened and its session (None when that fails)
     * kept. A second session is never requested.
     */
    method Clicked(dialog: Option<Bytes>)
      requires Valid()
      modifies this`session, this`pdb
      ensures Valid()
      ensures old(session).Some? ==> session == old(session) && pdb == old(pdb) + [SetPopup(session.value, Some(patternName))]
      ensures old(session).None? ==> session == dialog && pdb == old(pdb) + [SelectNew(title, patternName)]
    {
      if session.Some? {
        pdb := pdb + [SetPopup(session.value, Some(patternName))];
      } else {
        pdb := pdb + [SelectNew(title, patternName)];
        session := dialog;
      }
    }

    /** A resize of the preview redraws it, but only for a pattern of positive size. */
    method PreviewResize()
      requires Valid()
      modifies this`drawn
      ensures Valid()
      ensures width > 0 && height > 0 ==> drawn == old(drawn) + PreviewUpdate(width, height, bytes, maskData)
      ensures width <= 0 || height <= 0 ==> drawn == old(drawn)
    {
      if width > 0 && height > 0 {
        drawn := drawn + PreviewUpdate(width, height, bytes, maskData);
      }
    }

    /**
     * The popup that opening at pointer (x, y) of a preview whose origin is
     * (originX, originY) shows: none for a pattern within CELL_SIZE on both
     * sides, else one of the pattern's size, placed on each axis by
     * PopupAxis and drawn with the cached pixels.
     */
    function PopupFor(x: int, y: int, originX: int, originY: int, area: Rect): (r: Option<Popup>)
      requires Valid()
      reads this
      ensures r.None? <==> width <= CELL_SIZE && height <= CELL_SIZE
      ensures r.Some? ==> r.value.width == width && r.value.height == height
      ensures r.Some? ==> r.value.x == PopupAxis(originX, x, width, area.x, area.width)
      ensures r.Some? ==> r.value.y == PopupAxis(originY, y, height, area.y, area.height)
      ensures r.Some? ==> r.value.drawn == PreviewUpdate(width, height, bytes, maskData)
    {
      if width <= CELL_SIZE && height <= CELL_SIZE then None
      else
        Some(Popup(PopupAxis(originX, x, width, area.x, area.width),
                   PopupAxis(originY, y, height, area.y, area.height),
                   width, height, PreviewUpdate(width, height, bytes, maskData)))
    }

    /** Opens the popup, closing any open one first. */
    method OpenPopup(x: int, y: int, originX: int, originY: int, area: Rect)
      requires Valid()
      modifies this`popup
      ensures Valid()
      ensures popup == PopupFor(x, y, originX, originY, area)
    {
      if popup.Some? {
        ClosePopup();
      }
      if width <= CELL_SIZE && height <= CELL_SIZE {
        return;
      }
      var px := PopupAxis(originX, x, width, area.x, area.width);
      var py := PopupAxis(originY, y, height, area.y, area.height);
      popup := Some(Popup(px, py, width, height, PreviewUpdate(width, height, bytes, maskData)));
    }

    /** Closes the popup; closing when none is open does nothing. */
    method ClosePopup()
      requires Valid()
      modifies this`popup
      ensures Valid()
      ensures popup.None?
    {
      popup := None;
    }

    /**
     * Events on the preview: while pixels are cached, pressing the first
     * button opens the popup and releasing it closes the popup; everything
     * else, and every event while no pixels are cached, is ignored. The
     * event is never reported as handled.
     */
    method PreviewEvents(event: Event, originX: int, originY: int, area: Rect) returns (handled: bool)
      requires Valid()
      modifies this`popup
      ensures Valid()
      ensures !handled
      ensures maskData.Some? && event.ButtonPress? && event.button == 1 ==>
                popup == PopupFor(event.x, event.y, originX, originY, area)
      ensures maskData.Some? && event.ButtonRelease? && event.button == 1 ==> popup.None?
      ensures maskData.None? || event.OtherEvent? || event.button != 1 ==> popup == old(popup)
    {
      if maskData.Some? {
        match event
        case ButtonPress(button, x, y) =>
          if button == 1 {
            OpenPopup(x, y, originX, originY, area);
          }
        case ButtonRelease(button) =>
          if button == 1 {
            ClosePopup();
          }
        case OtherEvent =>
      }
      handled := false;
    }

    /**
     * A drop on the preview: a warning for a payload that is not 8-bit or
     * is empty; a payload that names this process sets its name suffix as
     * by SetPattern; every other drop changes nothing.
     */
    method DragDataReceived(format: int, data: Bytes, ownPid: int, context: Bytes, lookup: Lookup)
      returns (warned: bool)
      requires Valid() && WellFormedLookup(lookup)
      modifies this
      ensures Valid()
      ensures warned <==> format != 8 || |data| < 1
      ensures DragName(format, data, ownPid).None? ==> Kept()
      ensures DragName(format, data, ownPid).Some? ==> PatternSetTo(DragName(format, data, ownPid), context, lookup)
    {
      warned := format != 8 || |data| < 1;
      var name := DragName(format, data, ownPid);
      if name.Some? {
        SetPattern(name, context, lookup);
      }
    }
  }
}
