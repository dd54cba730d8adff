/**
 * The error console dockable: which message severities it highlights, how
 * that choice is saved in and restored from the session's aux info, the
 * text it appends for each message, and the message handler it installs
 * for as long as it exists.
 */
module ErrorConsoleModel {
  import opened Wrappers

  /** GimpMessageSeverity, in enum order: INFO = 0, WARNING = 1, ERROR = 2. */
  datatype Severity = Info | Warning | Error

  function Index(s: Severity): (i: nat)
    ensures i < 3
  {
    match s
    case Info => 0
    case Warning => 1
    case Error => 2
  }

  /** The aux-info keys, indexed by severity. */
  const HIGHLIGHT_KEYS: seq<string> := ["highlight-info", "highlight-warning", "highlight-error"]

  /** A new console highlights errors and warnings, not plain messages. */
  const DEFAULT_HIGHLIGHT: seq<bool> := [false, true, true]

  /** One aux-info entry (GimpSessionInfoAux): a name and a value. */
  datatype Aux = Aux(name: string, value: string)

  /** Where GIMP sends messages. */
  datatype MessageHandler = MessageBoxHandler | ConsoleHandler | ErrorConsoleHandler

  /** The core object, reduced to its message handler. */
  class Gimp {
    var messageHandler: MessageHandler

    constructor (handler: MessageHandler)
      ensures messageHandler == handler
    {
      messageHandler := handler;
    }
  }

  /** A piece of the console's text buffer. */
  datatype Piece =
    | IconAnchor(severity: Severity)        // a child anchor showing the severity's icon
    | Plain(text: string)
    | Tagged(text: string, tag: string)

  /** The index of the highlight flag an aux entry with this name sets, if any. */
  function KeyIndex(name: string): (r: int)
    ensures -1 <= r < 3
    ensures r >= 0 ==> HIGHLIGHT_KEYS[r] == name
    ensures r < 0 ==> name !in HIGHLIGHT_KEYS
  {
    if name == HIGHLIGHT_KEYS[0] then 0
    else if name == HIGHLIGHT_KEYS[1] then 1
    else if name == HIGHLIGHT_KEYS[2] then 2
    else -1
  }

  /** "yes" or "no". */
  function YesNo(b: bool): string {
    if b then "yes" else "no"
  }

  /**
   * The entries get_aux_info adds after the parent's: one per severity, in
   * severity order, valued "yes" when that severity is highlighted and "no"
   * otherwise.
   */
  function AuxFor(highlight: seq<bool>): (r: seq<Aux>)
    requires |highlight| == 3
    ensures |r| == 3
    ensures forall i :: 0 <= i < 3 ==> r[i].name == HIGHLIGHT_KEYS[i]
    ensures forall i :: 0 <= i < 3 ==> (r[i].value == "yes" <==> highlight[i])
    ensures forall i :: 0 <= i < 3 ==> r[i].value == "yes" || r[i].value == "no"
  {
    [Aux(HIGHLIGHT_KEYS[0], YesNo(highlight[0])),
     Aux(HIGHLIGHT_KEYS[1], YesNo(highlight[1])),
     Aux(HIGHLIGHT_KEYS[2], YesNo(highlight[2]))]
  }

  /** The flags after reading one entry: a highlight key sets its flag to value == "yes". */
  function Update(highlight: seq<bool>, aux: Aux): (r: seq<bool>)
    requires |highlight| == 3
    ensures |r| == 3
  {
    var i := KeyIndex(aux.name);
    if i >= 0 then highlight[i := aux.value == "yes"] else highlight
  }

  /** The flags after reading the entries in order. */
  function ApplyAux(highlight: seq<bool>, aux: seq<Aux>): (r: seq<bool>)
    requires |highlight| == 3
    ensures |r| == 3
  {
    if aux == [] then highlight
    else Update(ApplyAux(highlight, aux[..|aux| - 1]), aux[|aux| - 1])
  }

  /** The value of the last entry with this name, if there is one. */
  function LastValue(aux: seq<Aux>, name: string): (r: Option<string>)
    ensures r.Some? <==> exists j :: 0 <= j < |aux| && aux[j].name == name
    ensures r.Some? ==> exists j :: 0 <= j < |aux| && aux[j] == Aux(name, r.value)
  {
    if aux == [] then None
    else if aux[|aux| - 1].name == name then Some(aux[|aux| - 1].value)
    else
      var r := LastValue(aux[..|aux| - 1], name);
      assert forall j :: 0 <= j < |aux| - 1 ==> aux[..|aux| - 1][j] == aux[j];
      r
  }

  /**
   * What set_aux_info does to each flag: the last entry carrying its key
   * decides, true exactly for "yes"; without such an entry the flag keeps
   * its value.
   */
  lemma {:induction false} ApplyAuxAt(highlight: seq<bool>, aux: seq<Aux>, i: nat)
    requires |highlight| == 3 && i < 3
    ensures ApplyAux(highlight, aux)[i] == match LastValue(aux, HIGHLIGHT_KEYS[i])
                                           case None => highlight[i]
                                           case Some(v) => v == "yes"
  {
    if aux != [] {
      ApplyAuxAt(highlight, aux[..|aux| - 1], i);
    }
  }

  /** The last entry for a name in a + b is b's when b has one, a's otherwise. */
  lemma {:induction false} LastValueAppend(a: seq<Aux>, b: seq<Aux>, name: string)
    ensures LastValue(a + b, name) == if LastValue(b, name).Some? then LastValue(b, name) else LastValue(a, name)
  {
    if b != [] {
      assert (a + b)[..|a + b| - 1] == a + b[..|b| - 1];
      LastValueAppend(a, b[..|b| - 1], name);
    } else {
      assert a + b == a;
    }
  }

  /**
   * Saving and restoring round-trips: applying the entries get_aux_info
   * produced, after whatever the parent contributed, restores every flag,
   * whatever the flags were before.
   */
  lemma AuxRoundTrip(before: seq<bool>, parent: seq<Aux>, highlight: seq<bool>)
    requires |before| == 3 && |highlight| == 3
    ensures ApplyAux(before, parent + AuxFor(highlight)) == highlight
  {
    var aux := AuxFor(highlight);
    forall i | 0 <= i < 3
      ensures ApplyAux(before, parent + aux)[i] == highlight[i]
    {
      ApplyAuxAt(before, parent + aux, i);
      LastValueAppend(parent, aux, HIGHLIGHT_KEYS[i]);
      LastValueOfAuxFor(highlight, i);
    }
  }

  /** In AuxFor's entries, each key's value is that flag's "yes" or "no". */
  lemma LastValueOfAuxFor(highlight: seq<bool>, i: nat)
    requires |highlight| == 3 && i < 3
    ensures LastValue(AuxFor(highlight), HIGHLIGHT_KEYS[i]) == Some(YesNo(highlight[i]))
  {
    var aux := AuxFor(highlight);
    assert aux[..2][..1] == [aux[0]];
    assert aux[..2] == [aux[0], aux[1]];
  }

  class ErrorConsole {
    const gimp: Gimp
    /** The highlight flags, indexed by severity. */
    const highlight: array<bool>
    /** The contents of the text buffer. */
    var text: seq<Piece>

    predicate Valid()
      reads this
    {
      highlight.Length == 3
    }

    /**
     * gimp_error_console_new: a console with the default highlights and an
     * empty buffer that becomes GIMP's message handler.
     */
    constructor (gimp: Gimp)
      modifies gimp
      ensures Valid() && fresh(highlight)
      ensures this.gimp == gimp && highlight[..] == DEFAULT_HIGHLIGHT && text == []
      ensures gimp.messageHandler == ErrorConsoleHandler
    {
      this.gimp := gimp;
      var flags := new bool[3];
      flags[0], flags[1], flags[2] := DEFAULT_HIGHLIGHT[0], DEFAULT_HIGHLIGHT[1], DEFAULT_HIGHLIGHT[2];
      highlight := flags;
      text := [];
      new;
      gimp.messageHandler := ErrorConsoleHandler;
    }

    /** Disposing of the console hands messages back to the message box. */
    method Dispose()
      modifies gimp
      ensures gimp.messageHandler == MessageBoxHandler
    {
      gimp.messageHandler := MessageBoxHandler;
    }

    /** Restores the highlight flags from the session's aux info. */
    method SetAuxInfo(aux: seq<Aux>)
      requires Valid()
      modifies highlight
      ensures highlight[..] == ApplyAux(old(highlight[..]), aux)
    {
      var k := 0;
      while k < |aux|
        invariant 0 <= k <= |aux|
        invariant highlight[..] == ApplyAux(old(highlight[..]), aux[..k])
      {
        assert aux[..k + 1][..k] == aux[..k];
        ghost var target := Update(highlight[..], aux[k]);
        var i := 0;
        while i < 3
          invariant 0 <= i <= 3
          invariant forall j :: 0 <= j < i ==> aux[k].name != HIGHLIGHT_KEYS[j]
          invariant highlight[..] == ApplyAux(old(highlight[..]), aux[..k])
        {
          if aux[k].name == HIGHLIGHT_KEYS[i] {
            highlight[i] := aux[k].value == "yes";
            break;
          }
          i := i + 1;
        }
        assert highlight[..] == target;
        k := k + 1;
      }
      assert aux[..k] == aux;
    }

    /** The session's aux info: the parent's entries followed by one entry per severity. */
    method GetAuxInfo(parent: seq<Aux>) returns (aux: seq<Aux>)
      requires Valid()
      ensures aux == parent + AuxFor(highlight[..])
    {
      aux := parent;
      var i := 0;
      while i < 3
        invariant 0 <= i <= 3
        invariant aux == parent + AuxFor(highlight[..])[..i]
      {
        aux := aux + [Aux(HIGHLIGHT_KEYS[i], if highlight[i] then "yes" else "no")];
        i := i + 1;
      }
    }

    /**
     * Appends a message: the severity's icon, two spaces, the title
     * "<domain> <description>", a newline, the message and a blank line.
     * A NULL domain or message adds nothing.
     */
    method Add(severity: Severity, domain: Option<string>, description: string, message: Option<string>)
      modifies this`text
      ensures domain.None? || message.None? ==> text == old(text)
      ensures domain.Some? && message.Some? ==>
        text == old(text) + [IconAnchor(severity), Plain("  "), Tagged(domain.value + " " + description, "title"),
                             Plain("\n"), Tagged(message.value, "message"), Plain("\n\n")]
    {
      if domain.None? || message.None? {
        return;
      }
      text := text + [IconAnchor(severity)];
      text := text + [Plain("  ")];
      text := text + [Tagged(domain.value + " " + description, "title")];
      text := text + [Plain("\n")];
      text := text + [Tagged(message.value, "message")];
      text := text + [Plain("\n\n")];
    }
  }
}
