# GIMP: pattern select button, item-property undo, error console, drawable commands

A Dafny model of four pieces of GIMP, with proofs of what each promises.

- **Pattern select button** (`libgimp/gimppatternselectbutton.c`). The
  plug-in widget caches the selected pattern: its name, width, height,
  bytes per pixel and pixels. It keeps at most one browse session with the
  pattern dialog and redraws its preview. It opens an enlarged popup for
  patterns larger than the 20-pixel cell. It accepts same-process drops of
  the form `"<pid>:<pointer>:<name>"`.
  - Modules: `PatternSelect` (class `PatternSelectButton`), `PatternPreview`
    (image types, CLAMP, popup placement), `PatternPayload` (the drop parser).
  - The drop parser models glibc's `sscanf (str, "%i:%p:%n", ...)` conversion by
    conversion. The UTF-8 check follows RFC 3629, section 4, which is what
    `g_utf8_validate` accepts.
- **Item-property undo** (`app/core/gimpitempropundo.c`). Module
  `ItemPropUndo`. A record saves one property of an item, selected by the
  undo type. Each pop puts the saved value back and saves the item's
  previous value, so popping twice is the identity.
  - The item is the class `Items.Item`. Its setters are reduced to the
    effect `Items.Apply` states, and every call is logged on its image.
- **Error console** (`app/widgets/gimperrorconsole.c`). Module
  `ErrorConsoleModel`. It covers the highlight flags and their save and
  restore through the session's aux info, the text appended per message,
  and the message handler the console installs and removes.
- **Drawable commands** (`app/actions/drawable-commands.c`). Module
  `DrawableCommands`: show/hide, lock content, lock position and the RGB
  guard of white balance. The image is reduced to the log of what it is
  asked to do: item setter calls with their push-undo flag, undo groups,
  flushes and warnings.

Calls into code outside these files become parameters:
- the context's pattern, `gimp_pattern_get_pixels` (`Lookup`), the session
  `gimp_pattern_select_new` returns, and `gimp_getpid`;
- the compressible undo step (`compressible`);
- the severity description.

Calls whose effect is not ours to state become entries of a log (`pdb`,
`emitted`, `drawn`, `Image.calls`).

`GimpMessageSeverity` numbers INFO as 0, WARNING as 1 and ERROR as 2. The
designated initializers at `app/widgets/gimperrorconsole.c:46-51` and
`281-286` are therefore indexed info, warning, error, whatever their text
order. So `get_aux_info` writes `highlight-info`, `highlight-warning`,
`highlight-error` in that order, and the model does the same.

The doc comment of `gimp_pattern_select_button_set_pattern` says a NULL name
means "no change". The code instead looks up the context's current pattern
for a NULL or empty name (`libgimp/gimppatternselectbutton.c:315-318`); the
model follows the code (`PatternSelect.Resolve`).

## Model

| member | source | states |
|---|---|---|
| PatternPayload.DragName | libgimp/gimppatternselectbutton.c:606-630 | Only an 8-bit payload of at least one byte can yield a name. The name is a NUL-free suffix of the text before the first NUL, and at least four bytes shorter than the payload. |
| PatternPayload.DragNameAccepts | libgimp/gimppatternselectbutton.c:609-630 | For every payload, a drop yields a name exactly when: the payload is 8-bit and non-empty; its text up to the first NUL is valid UTF-8; sscanf made both conversions; the stored pid is the own pid; and the name offset is nonzero. The name is then that text from the name offset on. |
| PatternPayload.UpToNul | libgimp/gimppatternselectbutton.c:615-616 | g_strndup's C string: the longest NUL-free prefix of the received bytes, which stops at a NUL when one is there. |
| PatternPayload.SequenceLength | libgimp/gimppatternselectbutton.c:618 | Its contract bounds the sequence length by the text and by 4. Its body is the reference table of section 4 of RFC 3629 (0 when no well-formed sequence starts the text); the table's edges are pinned on concrete bytes by Utf8Forms. |
| PatternPayload.Utf8Forms | libgimp/gimppatternselectbutton.c:618 | g_utf8_validate accepts a three-byte character. It rejects an overlong form, a surrogate, a code point above U+10FFFF and a cut-off sequence. |
| PatternPayload.ScanInt | libgimp/gimppatternselectbutton.c:624 | glibc's `%i` conversion reads at least one byte, and never past the end of the text. |
| PatternPayload.ScanIntHexForms | libgimp/gimppatternselectbutton.c:624 | `%i` reads "0x" with no hex digit as 0, consuming the x. It reads "0X1f" as 31, and ":" is no conversion. |
| PatternPayload.ScanIntOctalForm | libgimp/gimppatternselectbutton.c:624 | `%i` reads a leading 0 as octal: "017" is 15. |
| PatternPayload.ScanIntSignedForm | libgimp/gimppatternselectbutton.c:624 | `%i` skips white space and takes a sign: " -12" is -12. |
| PatternPayload.ScanPointer | libgimp/gimppatternselectbutton.c:624 | glibc's `%p` conversion reads at least one byte, and never past the end of the text. |
| PatternPayload.ScanPointerNilForms | libgimp/gimppatternselectbutton.c:624 | `%p` reads "(nil)" in any letter case, but not after a sign. |
| PatternPayload.ScanPointerHexForms | libgimp/gimppatternselectbutton.c:624 | `%p` reads a hexadecimal number, signed or not, with or without "0x". |
| PatternPayload.ScanDragPayload | libgimp/gimppatternselectbutton.c:620-625 | At most two conversions are made, and a pid is stored exactly when one is. The pid is a gint. A nonzero name offset means both conversions matched, and it points just after a colon within the string. |
| PatternPayload.ToGint | libgimp/gimppatternselectbutton.c:620-624 | Storing into a gint gives a value in the gint range, congruent modulo 2^32 to the scanned value, and unchanged when the value already fits. |
| PatternPayload.NameIn | libgimp/gimppatternselectbutton.c:624-629 | A name is accepted exactly when both conversions matched, the stored pid is the own pid and the name offset is nonzero. It is the string from the name offset on, and is NUL-free when the string is. |
| PatternPayload.ScanPidField | libgimp/gimppatternselectbutton.c:624 | `%i` reads a decimal pid field up to the colon that ends it, with its value. |
| PatternPayload.ScanPointerField | libgimp/gimppatternselectbutton.c:624 | `%p` reads a pointer field, `0x`-hex or `(nil)`, up to the colon that ends it. |
| PatternPayload.FieldsMatched | libgimp/gimppatternselectbutton.c:624 | With a decimal pid field and a pointer field each followed by a colon, sscanf makes two conversions, stores the pid and sets the name offset just after the second colon. |
| PatternPayload.DragPayloadText | libgimp/gimppatternselectbutton.c:609-630 | A drop of `d:p:name` yields exactly `name` when the pid field, stored into a gint, equals the own pid, and is discarded otherwise. |
| PatternPayload.DragRoundTrip | libgimp/gimppatternselectbutton.c:609-630 | Round trip: a payload built from a gint pid, any pointer and a NUL-free UTF-8 name yields that name exactly when the pid is the own pid. |
| PatternPayload.DragPidModulo32 | libgimp/gimppatternselectbutton.c:620-625 | Where C `long` is 64 bits (LP64), a pid field 2^32 above the own pid is accepted too, because the comparison happens after the store into a gint. |
| PatternPreview.ImageTypeOf | libgimp/gimppatternselectbutton.c:515-523 | Byte counts 1 to 4 map to GRAY, GRAYA, RGB and RGBA, and the type's channel count is the byte count. Every other count gives no type. |
| PatternPreview.ImageTypeOfChannels | libgimp/gimppatternselectbutton.c:515-523 | The byte-count map inverts the channel count of each image type. |
| PatternPreview.PreviewUpdate | libgimp/gimppatternselectbutton.c:506-530 | An unknown pixel size draws nothing. Otherwise there is one draw of the whole area from the origin, with the given pixels and rows of width * bytes bytes. |
| PatternPreview.Clamp | libgimp/gimppatternselectbutton.c:576-577 | GLib CLAMP: within [low, high] when low <= high, the identity inside, high above high. With an empty range it gives high exactly when x > high. |
| PatternPreview.Half | libgimp/gimppatternselectbutton.c:573-574 | C's `/ 2`: truncates toward zero for both signs. |
| PatternPreview.PopupAxis | libgimp/gimppatternselectbutton.c:573-577 | A popup that fits the work area lies inside it and covers the pointer. It is centred on the pointer when that fits. A popup wider than the area covers it, flush with one edge. |
| PatternPreview.PopupWiderThanArea | libgimp/gimppatternselectbutton.c:573-577 | A 1000-pixel popup on an 800-pixel area lands at -200 or 0, depending on the pointer. |
| PatternSelect.MemDup | libgimp/gimppatternselectbutton.c:421 | g_memdup2 copies exactly the first `size` bytes and returns NULL for size 0. |
| PatternSelect.Resolve | libgimp/gimppatternselectbutton.c:315-318 | A NULL or empty name resolves to the context's pattern; any other name to itself. |
| PatternSelect.EmittedArgsMismatch | libgimp/gimppatternselectbutton.c:429-430 | The emission as written passes five arguments to a signal declared at lines 198-211 with six parameters. The closing flag sits in the mask-data pointer's slot. |
| PatternSelect.PatternSetArgs | libgimp/gimppatternselectbutton.c:198-211 | The corrected arguments conform to the declaration. They are the emitted ones with the mask data inserted before the closing flag. |
| PatternSelect.PatternSelectButton.constructor | libgimp/gimppatternselectbutton.c:214-263 | The title defaults to "Pattern Selection". The context's pattern is fetched, with zero size and no pixels when that fails. Then the requested pattern is set. A found one is taken as by the callback. Otherwise the context's pattern stays, with the size, bytes and a copy of the pixels its lookup returned. |
| PatternSelect.PatternSelectButton.GetPattern | libgimp/gimppatternselectbutton.c:275-281 | Returns the cached name. |
| PatternSelect.PatternSelectButton.SetPattern | libgimp/gimppatternselectbutton.c:292-336 | With an open session, the name is forwarded and nothing else changes. Otherwise the resolved name is looked up: a found pattern is taken as by the callback, and a failed lookup changes nothing and emits nothing. The cache invariant holds. |
| PatternSelect.PatternSelectButton.Callback | libgimp/gimppatternselectbutton.c:402-432 | Replaces name, width, height and bytes together and copies exactly width*height*bytes bytes. It redraws the preview and closes the session exactly when the dialog is closing. It always emits "pattern-set" then the "pattern-name" notification. The "pattern-set" arguments logged are the corrected six of PatternSetArgs (see Findings). |
| PatternSelect.PatternSelectButton.Clicked | libgimp/gimppatternselectbutton.c:434-453 | An open session is raised with the cached name. Otherwise one dialog is requested and its session kept, so a second session is never opened. |
| PatternSelect.PatternSelectButton.PreviewResize | libgimp/gimppatternselectbutton.c:455-464 | Redraws with the cached pattern only when width and height are positive. |
| PatternSelect.PatternSelectButton.PopupFor | libgimp/gimppatternselectbutton.c:545-589 | There is no popup exactly when both sides are within CELL_SIZE. Otherwise the popup has the pattern's size, is placed on each axis independently by PopupAxis, and shows the cached pixels. |
| PatternSelect.PatternSelectButton.OpenPopup | libgimp/gimppatternselectbutton.c:532-589 | Any open popup is closed first. The popup becomes PopupFor of the pointer and origin. |
| PatternSelect.PatternSelectButton.ClosePopup | libgimp/gimppatternselectbutton.c:591-595 | Leaves no popup, also when none was open. |
| PatternSelect.PatternSelectButton.PreviewEvents | libgimp/gimppatternselectbutton.c:466-504 | With pixels cached, a press of button 1 opens the popup and a release of button 1 closes it. Every other event, and every event without pixels, leaves the popup alone. The event is never reported as handled. |
| PatternSelect.PatternSelectButton.DragDataReceived | libgimp/gimppatternselectbutton.c:597-634 | Warns exactly for a payload that is not 8-bit or is empty. A payload naming this process sets its name suffix as SetPattern does. Every other drop changes nothing. |
| Items.Apply | app/core/gimpitempropundo.c:230-335 | Setters keep every parasite filed under its own name. Only attach and detach touch the parasites. |
| Items.Item.Request | app/core/gimpitempropundo.c:230-335 | A setter call is logged on the image with its push-undo flag, and the item takes its effect. |
| ItemPropUndo.Snapshot | app/core/gimpitempropundo.c:105-148 | The record holds the item's value of the selected property, with every other field zero. It fits the item: a rename holds a name, and a saved parasite carries the record's parasite name. |
| ItemPropUndo.PopCall | app/core/gimpitempropundo.c:222-339 | Displace translates by saved minus current offset. For parasites, the saved one is attached, or the named one is detached when none was saved. |
| ItemPropUndo.PopSetsScalar | app/core/gimpitempropundo.c:222-320 | For the single-value kinds, pop sets the saved value on the item and changes nothing else of it. |
| ItemPropUndo.PopSetsParasite | app/core/gimpitempropundo.c:322-339 | For parasites, pop makes the named parasite the saved one, or absent, and keeps every other parasite. |
| ItemPropUndo.PopSaves | app/core/gimpitempropundo.c:222-339 | After pop, the record holds the item's pre-pop value and nothing else of it changes. |
| ItemPropUndo.PopSwaps | app/core/gimpitempropundo.c:222-339 | Pop swaps the saved value and the item's value of the selected property. Nothing else of the item or the record changes. |
| ItemPropUndo.ItemDeterminedBy | app/core/gimpitempropundo.c:105-148 | An item is determined by its selected property together with everything outside it. |
| ItemPropUndo.RecordDeterminedBy | app/core/gimpitempropundo.c:105-148 | A record is determined by its selected field together with the rest. |
| ItemPropUndo.PopTwice | app/core/gimpitempropundo.c:222-339 | Popping twice restores both the item and the record (undo then redo). |
| ItemPropUndo.PopAfterSnapshot | app/core/gimpitempropundo.c:105-339 | Popping a freshly made record changes neither the item nor the record. |
| ItemPropUndo.ItemPropUndo.constructor | app/core/gimpitempropundo.c:96-153 | A parasite record needs a parasite name. The record is the Snapshot of the item, and an unknown type saves nothing. |
| ItemPropUndo.ItemPropUndo.Pop | app/core/gimpitempropundo.c:210-345 | A known type makes exactly one setter call, with push-undo FALSE. Item and record become PopItem and PopRecord of their old values. An unknown type changes nothing. |
| ItemPropUndo.ItemPropUndo.Free | app/core/gimpitempropundo.c:347-358 | Clears the name, the parasite name and the parasite. |
| ErrorConsoleModel.KeyIndex | app/widgets/gimperrorconsole.c:302-308 | Finds the severity whose highlight key is the given name, or none when no key matches. |
| ErrorConsoleModel.AuxFor | app/widgets/gimperrorconsole.c:322-330 | Three entries, one per severity in severity order. Each is valued "yes" exactly when that severity is highlighted, and "no" otherwise. |
| ErrorConsoleModel.LastValue | app/widgets/gimperrorconsole.c:297-310 | Some exactly when an entry carries the name, and then it is the value of such an entry. |
| ErrorConsoleModel.ApplyAuxAt | app/widgets/gimperrorconsole.c:297-310 | After set_aux_info, each flag is true exactly when the last entry with its key is "yes". Without such an entry the flag is unchanged, and other keys are ignored. |
| ErrorConsoleModel.LastValueAppend | app/widgets/gimperrorconsole.c:320-329 | The last entry for a name in the parent's entries followed by the console's is the console's, when it has one. |
| ErrorConsoleModel.LastValueOfAuxFor | app/widgets/gimperrorconsole.c:322-330 | In the console's own entries, each key's value is "yes" or "no" by its flag. |
| ErrorConsoleModel.AuxRoundTrip | app/widgets/gimperrorconsole.c:281-333 | Restoring what get_aux_info saved, after any parent entries, gives back every flag, whatever the flags were before. |
| ErrorConsoleModel.ErrorConsole.constructor | app/widgets/gimperrorconsole.c:186-205 | A new console highlights warnings and errors but not info (the defaults at lines 46-51, copied at line 127). Its buffer is empty, and it becomes GIMP's message handler. |
| ErrorConsoleModel.ErrorConsole.Dispose | app/widgets/gimperrorconsole.c:161-172 | Hands messages back to the message box. |
| ErrorConsoleModel.ErrorConsole.SetAuxInfo | app/widgets/gimperrorconsole.c:288-311 | The flags become ApplyAux of the old flags and the entries, in order. |
| ErrorConsoleModel.ErrorConsole.GetAuxInfo | app/widgets/gimperrorconsole.c:313-333 | Returns the parent's entries followed by AuxFor of the flags. |
| ErrorConsoleModel.ErrorConsole.Add | app/widgets/gimperrorconsole.c:207-263 | A NULL domain or message adds nothing. Otherwise the buffer keeps its contents and gains, in order: an icon anchor, two spaces, the "domain description" title, a newline, the message and a blank line. |
| DrawableCommands.Target | app/actions/drawable-commands.c:171-173 | A layer mask stands for its layer; any other drawable for itself (also at lines 207-209). |
| DrawableCommands.Targets | app/actions/drawable-commands.c:102-108 | A layer mask first in the selection stands for its layer alone; otherwise the selection is kept. |
| DrawableCommands.FirstDiff | app/actions/drawable-commands.c:124-126 | The first index whose visibility differs from the request, or the length when none differs. |
| DrawableCommands.VisibleCalls | app/actions/drawable-commands.c:110-151 | There are no calls exactly when there is no target, or a show is requested while some target is visible, or every target already has the requested visibility; in every other case the command acts. |
| DrawableCommands.VisibleCallsShape | app/actions/drawable-commands.c:134-156 | A command that acts ends with a flush. A single target skips its undo push exactly when the compressible visibility undo is its own. Several targets are set inside one undo group, opened first and closed before the flush, and group starts match group ends. |
| DrawableCommands.VisibleCallsItems | app/actions/drawable-commands.c:134-151 | Every setter call sets the requested visibility on a target from the first one that differs from the request on. Only the single compressible target skips its undo push. |
| DrawableCommands.AnyVisible | app/actions/drawable-commands.c:110-122 | True exactly when some item is visible. |
| DrawableCommands.FirstDiffering | app/actions/drawable-commands.c:124-126 | Returns FirstDiff of the items' visibilities. |
| DrawableCommands.SetVisibleFrom | app/actions/drawable-commands.c:150-151 | Sets the visibility of the items from index k on, one logged call each. Nothing else of any item changes. |
| DrawableCommands.SetVisibleGrouped | app/actions/drawable-commands.c:134-156 | From the first differing target on: a single call for one target, or a group around the calls for several, then a flush. Every target ends with the requested visibility. |
| DrawableCommands.ShowOrHide | app/actions/drawable-commands.c:110-156 | The log grows by VisibleCalls of the old visibilities, and only visibility changes. With no calls nothing changes; otherwise every target has the requested visibility. |
| DrawableCommands.VisibleCmd | app/actions/drawable-commands.c:86-157 | ShowOrHide on Targets of the selection. |
| DrawableCommands.LockContentCmd | app/actions/drawable-commands.c:159-193 | An equal request does nothing. A differing one sets the lock on the target, always pushing undo, and flushes. |
| DrawableCommands.LockPositionCmd | app/actions/drawable-commands.c:195-225 | An equal request does nothing. A differing one sets the lock, pushing undo unless the compressible lock-position undo is the target's, and flushes. |
| DrawableCommands.LevelsStretchCmd | app/actions/drawable-commands.c:60-84 | A non-RGB drawable gets the white-balance warning and nothing else. An RGB one is stretched and the image flushed. |

## Left out

- Items.Apply: the item-tree and item setters are outside this model, so their effect is idealised: reorder stores exactly the requested parent and position, rename exactly the requested name (no uniquifying), translate adds the offsets, attach and detach update the parasite map. PopTwice and PopAfterSnapshot hold under that assumption.
- GTK and GObject wiring is not modelled: class_init, property plumbing, create_inside, widget creation, grabs, text tags, scrolling, marks, unmap, button_press, the file dialog.
- Calls into the plug-in database (`gimp_pattern_get_pixels`, `gimp_context_get_pattern`, `gimp_pattern_select_new`, `gimp_patterns_set_popup`, `gimp_getpid`) are parameters or logged calls; what they do is not modelled. Every pattern that `gimp_pattern_get_pixels` reports is assumed to have non-negative width, height and bytes, and exactly width * height * bytes bytes of pixels (`PatternSelect.WellFormedLookup`); the button's cache invariant after construction, SetPattern and a drop depends on it.
- PatternSelect.PatternSelectButton.constructor: the property setter that passes the title and name from `gimp_pattern_select_button_new` is folded into the constructor; `gimp_pattern_select_button_finalize` (the frees) is not modelled.
- PatternSelect.PatternSelectButton.Callback: records the intended six-argument emission (PatternSetArgs), not the five-argument call at lines 429-430 of `libgimp/gimppatternselectbutton.c`; the as-written call is modelled separately (EmittedArgs, EmittedArgsMismatch).
- PatternSelect.PatternSelectButton.Callback: width * height * bytes is computed in unbounded integers, and its gint overflow is not modelled; the requires asks for that many bytes of pixel data, as the dialog supplies.
- PatternSelect.PatternSelectButton.PreviewEvents: pointer coordinates arrive as whole numbers; their truncation from gdouble is not modelled. The monitor work area and window origin are parameters.
- PatternPayload.SaturateLong: strtol saturates to a 64-bit `long`, as on LP64 systems; where `long` is 32 bits (ILP32, LLP64) it saturates at 2^31 - 1 instead, and PatternPayload.DragPidModulo32 then does not describe the program (a pid field 2^32 above the own pid saturates and is refused).
- PatternPayload.ScanDragPayload: the sender side of a drop is modelled only as Payload (decimal pid, `0x` hex or `(nil)` pointer); `%p` is read as glibc reads a hexadecimal token, the value itself is discarded as in the source; the locale is the C locale.
- The warning printed for an invalid drop (`g_warning`) is returned as a flag rather than logged.
- ErrorConsoleModel.ErrorConsole.Add: the severity's description from `gimp_enum_get_value` is a parameter, the icon is represented by the severity, and scrolling to the end is not modelled.
- ErrorConsoleModel.ErrorConsole.SetAuxInfo: the parent's `set_aux_info` and the entries the parent's `get_aux_info` returns are outside this model (the latter is a parameter of GetAuxInfo).
- `gimp_item_prop_undo_get_memsize`, the property getter and setter of the parasite name, and the parent class's pop and free are not modelled.
- ItemPropUndo.ItemPropUndo.constructor: `g_return_if_reached` for an unknown undo type is modelled as saving nothing and popping as doing nothing; the critical it logs is not modelled.
- `drawable_equalize_cmd_callback`, `drawable_flip_cmd_callback` and `drawable_rotate_cmd_callback` call into code outside this model and carry no decision of their own; they are not modelled, nor is the `#if 0` block in the lock-content command.
- DrawableCommands.LevelsStretchCmd: the stretch itself and the progress display are logged calls; the drawable's contents are not modelled.
- The undo stack is not modelled; `gimp_image_undo_can_compress` is the `compressible` parameter, the item of the open compressible undo step of the matching kind.

## Findings

| source | as written | input that shows it | evidently intended | confidence | as-written member | corrected member |
|---|---|---|---|---|---|---|
| libgimp/gimppatternselectbutton.c:429-430 | `g_signal_emit` of "pattern-set" passes name, width, height, bytes, dialog_closing: five arguments for a signal declared (lines 198-211) with six parameters (a string, three ints, a pointer and a boolean) | any selection, e.g. the callback with dialog_closing = TRUE: the boolean is read as the mask-data pointer and the closing flag is read from beyond the arguments | pass `mask_data` before `dialog_closing` | not executed | PatternSelect.EmittedArgsMismatch | PatternSelect.PatternSetArgs |
