/**
 * The interrupt configuration interface of cs107e/include/interrupts.h: a
 * single controller that is initialised once, switches interrupt delivery
 * on and off globally and per source, and keeps one handler slot
 * `(fn, aux_data)` per valid source.
 *
 * Calls that the header says "raise an error" return an error Status and
 * leave the controller unchanged. The hardware side (trap vector, the
 * controller's registers, acknowledging a pending bit) is represented
 * only by the set of pending sources, latched and cleared from outside.
 */
module Interrupts {
  import opened Wrappers

  /**
   * The `interrupt_source_t` enumeration in ascending order: UART0-5
   * (18-23), TWI0-3 (25-28), SPI0-1 (31-32), HSTIMER0-1 (71-72) and
   * GPIOB-GPIOG (85, 87, ..., 95).
   */
  const SourceNumbers: seq<int> :=
    [18, 19, 20, 21, 22, 23, 25, 26, 27, 28, 31, 32, 71, 72, 85, 87, 89, 91, 93, 95]

  /** The source numbers the module accepts. */
  const ValidSources: set<int> := set s | s in SourceNumbers

  /** The same enumeration read as ranges of source numbers. */
  predicate IsInterruptSource(s: int)
  {
    || 18 <= s <= 23
    || 25 <= s <= 28
    || 31 <= s <= 32
    || 71 <= s <= 72
    || (85 <= s <= 95 && s % 2 == 1)
  }

  /** Membership in the enumeration is exactly the range description. */
  lemma ValidSourcesAreRanges(s: int)
    ensures s in ValidSources <==> IsInterruptSource(s)
  {
    if 85 <= s <= 95 && s % 2 == 1 {
      assert s == 85 || s == 87 || s == 89 || s == 91 || s == 93 || s == 95;
    }
  }

  /** Whether each element of s is larger than the one before. */
  predicate Ascending(s: seq<int>)
  {
    forall i :: 0 < i < |s| ==> s[i - 1] < s[i]
  }

  /** Every element of an ascending sequence exceeds a bound below its first element. */
  lemma {:induction false} AscendingBound(s: seq<int>, b: int)
    requires Ascending(s) && (s != [] ==> b < s[0])
    ensures forall x :: x in s ==> b < x
    decreases |s|
  {
    if s != [] {
      if |s| > 1 {
        assert Ascending(s[1..]) by {
          forall i | 0 < i < |s[1..]| ensures s[1..][i - 1] < s[1..][i] {
            assert s[1..][i - 1] == s[i] && s[1..][i] == s[i + 1];
          }
        }
        AscendingBound(s[1..], b);
      }
      forall x | x in s ensures b < x {
        if x != s[0] { assert x in s[1..]; }
      }
    }
  }

  /** An ascending sequence has as many distinct elements as it has entries. */
  lemma {:induction false} AscendingCard(s: seq<int>)
    requires Ascending(s)
    ensures |set x | x in s| == |s|
    decreases |s|
  {
    if s != [] {
      var tail := s[1..];
      assert Ascending(tail) by {
        forall i | 0 < i < |tail| ensures tail[i - 1] < tail[i] {
          assert tail[i - 1] == s[i] && tail[i] == s[i + 1];
        }
      }
      AscendingCard(tail);
      if tail != [] { AscendingBound(tail, s[0]); }
      assert (set x | x in s) == {s[0]} + (set x | x in tail);
    }
  }

  /** The enumeration has twenty distinct members. */
  lemma ValidSourcesCount()
    ensures |ValidSources| == 20
  {
    AscendingCard(SourceNumbers);
  }

  /** A handler function, known only by its identity. */
  datatype HandlerId = HandlerId(id: nat)

  /** The client's `aux_data` pointer: NULL, or a token the module hands back unchanged. */
  datatype AuxData = NullAux | Aux(token: nat)

  /** A `uintptr_t` value: the interrupted pc handed to a handler. */
  type Address = a: int | 0 <= a < 0x1_0000_0000_0000_0000

  /** One handler slot: the registered function (None for NULL) and its aux data. */
  datatype Entry = Entry(fn: Option<HandlerId>, aux: AuxData)

  /** The slot every source holds before any registration. */
  const EmptyEntry: Entry := Entry(None, NullAux)

  /** The handler table with every slot empty. */
  const EmptyTable: map<int, Entry> := map s | s in ValidSources :: EmptyEntry

  /** The errors the header says a call raises. */
  datatype UsageError = DoubleInit | InvalidSource

  /** The outcome of a configuration call. */
  datatype Status = Ok | Error(error: UsageError)

  /** A handler call `fn(pc, aux_data)`. */
  datatype HandlerCall = HandlerCall(fn: HandlerId, pc: Address, aux: AuxData)

  /** The module's singleton state. */
  class InterruptController {
    var initialized: bool
    var globalEnabled: bool
    /** The sources enabled individually. */
    var enabled: set<int>
    /** One `(fn, aux_data)` slot per valid source. */
    var handlers: map<int, Entry>
    /** Sources whose interrupt the hardware holds pending; no configuration call changes it. */
    var pending: set<int>

    /** The table has exactly one slot per valid source, and only valid sources are enabled. */
    ghost predicate Valid()
      reads this
    {
      handlers.Keys == ValidSources && enabled <= ValidSources
    }

    /** The state at process start, before `interrupts_init`. */
    constructor ()
      ensures Valid()
      ensures !initialized && !globalEnabled && enabled == {} && handlers == EmptyTable && pending == {}
    {
      initialized := false;
      globalEnabled := false;
      enabled := {};
      handlers := EmptyTable;
      pending := {};
    }

    /**
     * `interrupts_init`: the first call leaves every source disabled,
     * interrupts globally disabled and every slot empty; a second call is an
     * error and changes nothing.
     */
    method Init() returns (status: Status)
      requires Valid()
      modifies this
      ensures Valid()
      ensures old(initialized) ==> status == Error(DoubleInit) && unchanged(this)
      ensures !old(initialized) ==>
                && status == Ok
                && initialized && !globalEnabled && enabled == {} && handlers == EmptyTable
                && pending == old(pending)
    {
      if initialized {
        return Error(DoubleInit);
      }
      initialized := true;
      globalEnabled := false;
      enabled := {};
      handlers := EmptyTable;
      status := Ok;
    }

    /** `interrupts_global_enable`: turns delivery on; nothing else changes. */
    method GlobalEnable()
      requires initialized
      modifies this
      ensures globalEnabled
      ensures initialized && enabled == old(enabled) && handlers == old(handlers) && pending == old(pending)
    {
      globalEnabled := true;
    }

    /**
     * `interrupts_global_disable`: turns delivery off. Handlers, per-source
     * enables and pending interrupts are left as they were.
     */
    method GlobalDisable()
      requires initialized
      modifies this
      ensures !globalEnabled
      ensures initialized && enabled == old(enabled) && handlers == old(handlers) && pending == old(pending)
    {
      globalEnabled := false;
    }

    /** `interrupts_enable_source`: enables a valid source; any other value is an error. */
    method EnableSource(source: int) returns (status: Status)
      requires initialized && Valid()
      modifies this
      ensures Valid()
      ensures source !in ValidSources ==> status == Error(InvalidSource) && unchanged(this)
      ensures source in ValidSources ==>
                && status == Ok
                && enabled == old(enabled) + {source}
                && initialized && globalEnabled == old(globalEnabled)
                && handlers == old(handlers) && pending == old(pending)
    {
      if source !in ValidSources {
        return Error(InvalidSource);
      }
      enabled := enabled + {source};
      status := Ok;
    }

    /**
     * `interrupts_disable_source`: disables a valid source; any other value
     * is an error. An interrupt pending on the source stays pending.
     */
    method DisableSource(source: int) returns (status: Status)
      requires initialized && Valid()
      modifies this
      ensures Valid()
      ensures source !in ValidSources ==> status == Error(InvalidSource) && unchanged(this)
      ensures source in ValidSources ==>
                && status == Ok
                && enabled == old(enabled) - {source}
                && initialized && globalEnabled == old(globalEnabled)
                && handlers == old(handlers) && pending == old(pending)
    {
      if source !in ValidSources {
        return Error(InvalidSource);
      }
      enabled := enabled - {source};
      status := Ok;
    }

    /**
     * `interrupts_register_handler`: overwrites the one slot of a valid
     * source with `(fn, aux)`; `fn == None` leaves the slot without a
     * handler. Enables are untouched. Any other source value is an error.
     */
    method RegisterHandler(source: int, fn: Option<HandlerId>, aux: AuxData) returns (status: Status)
      requires initialized && Valid()
      modifies this
      ensures Valid()
      ensures source !in ValidSources ==> status == Error(InvalidSource) && unchanged(this)
      ensures source in ValidSources ==>
                && status == Ok
                && handlers == old(handlers)[source := Entry(fn, aux)]
                && initialized && globalEnabled == old(globalEnabled)
                && enabled == old(enabled) && pending == old(pending)
    {
      if source !in ValidSources {
        return Error(InvalidSource);
      }
      handlers := handlers[source := Entry(fn, aux)];
      status := Ok;
    }

    /** The hardware latches an interrupt on `source`. */
    method Latch(source: int)
      modifies this
      ensures pending == old(pending) + {source}
      ensures initialized == old(initialized) && globalEnabled == old(globalEnabled)
      ensures enabled == old(enabled) && handlers == old(handlers)
    {
      pending := pending + {source};
    }

    /** The pending interrupt on `source` is acknowledged at the hardware. */
    method ClearPending(source: int)
      modifies this
      ensures pending == old(pending) - {source}
      ensures initialized == old(initialized) && globalEnabled == old(globalEnabled)
      ensures enabled == old(enabled) && handlers == old(handlers)
    {
      pending := pending - {source};
    }

    /**
     * Whether an interrupt on `source` reaches a handler: interrupts are on
     * globally, the source is enabled, and its slot holds a handler.
     */
    predicate WouldDispatch(source: int)
      reads this
    {
      && initialized
      && globalEnabled
      && source in enabled
      && source in handlers
      && handlers[source].fn.Some?
    }

    /**
     * The handler call an interrupt pending on `source` produces when taken
     * at `pc`: the registered function, given `pc` and the aux data
     * registered with it, or no call at all.
     */
    function Delivery(source: int, pc: Address): (call: Option<HandlerCall>)
      reads this
      ensures call.Some? <==> source in pending && WouldDispatch(source)
      ensures call.Some? ==>
                && Some(call.value.fn) == handlers[source].fn
                && call.value.pc == pc
                && call.value.aux == handlers[source].aux
    {
      if source in pending && WouldDispatch(source) then
        Some(HandlerCall(handlers[source].fn.value, pc, handlers[source].aux))
      else
        None
    }
  }

  // ---------------------------------------------------------------------
  // Call sequences
  // ---------------------------------------------------------------------

  /** A second `interrupts_init` is refused. */
  method InitTwice() returns (first: Status, second: Status)
    ensures first == Ok && second == Error(DoubleInit)
  {
    var c := new InterruptController();
    first := c.Init();
    second := c.Init();
  }

  /**
   * Straight after init nothing is delivered, whatever is pending: every
   * source is disabled and interrupts are off globally.
   */
  method NothingAfterInit(source: int, pc: Address) returns (call: Option<HandlerCall>)
    ensures call == None
  {
    var c := new InterruptController();
    var _ := c.Init();
    c.Latch(source);
    call := c.Delivery(source, pc);
  }

  /** Every configuration call on a source outside the enumeration is refused. */
  method InvalidSourceRefused(source: int, fn: Option<HandlerId>, aux: AuxData)
      returns (enable: Status, disable: Status, register: Status)
    requires source !in ValidSources
    ensures enable == Error(InvalidSource) && disable == Error(InvalidSource) && register == Error(InvalidSource)
  {
    var c := new InterruptController();
    var _ := c.Init();
    enable := c.EnableSource(source);
    disable := c.DisableSource(source);
    register := c.RegisterHandler(source, fn, aux);
  }

  /**
   * Register, then enable the source, then enable globally: a pending
   * interrupt reaches the handler with the interrupted pc and the aux data;
   * before either enable it reaches nothing.
   */
  method RegisterThenEnable(source: int, fn: HandlerId, aux: AuxData, pc: Address)
      returns (beforeSource: Option<HandlerCall>, beforeGlobal: Option<HandlerCall>, after: Option<HandlerCall>)
    requires source in ValidSources
    ensures beforeSource == None && beforeGlobal == None
    ensures after == Some(HandlerCall(fn, pc, aux))
  {
    var c := new InterruptController();
    var _ := c.Init();
    c.Latch(source);
    var _ := c.RegisterHandler(source, Some(fn), aux);
    beforeSource := c.Delivery(source, pc);
    var _ := c.EnableSource(source);
    beforeGlobal := c.Delivery(source, pc);
    c.GlobalEnable();
    after := c.Delivery(source, pc);
  }

  /** A configured controller with `fn` registered on `source`, which is enabled, and delivery on. */
  method Configured(source: int, fn: HandlerId, aux: AuxData) returns (c: InterruptController)
    requires source in ValidSources
    ensures fresh(c) && c.Valid()
    ensures c.initialized && c.globalEnabled && c.enabled == {source} && c.pending == {}
    ensures c.handlers == EmptyTable[source := Entry(Some(fn), aux)]
  {
    c := new InterruptController();
    var _ := c.Init();
    var _ := c.RegisterHandler(source, Some(fn), aux);
    var _ := c.EnableSource(source);
    c.GlobalEnable();
  }

  /**
   * Global disable suspends delivery without forgetting the configuration:
   * a later global enable delivers the same call as before.
   */
  method SuspendAndResume(source: int, fn: HandlerId, aux: AuxData, pc: Address)
      returns (before: Option<HandlerCall>, suspended: Option<HandlerCall>, resumed: Option<HandlerCall>)
    requires source in ValidSources
    ensures before == Some(HandlerCall(fn, pc, aux))
    ensures suspended == None && resumed == before
  {
    var c := Configured(source, fn, aux);
    c.Latch(source);
    before := c.Delivery(source, pc);
    c.GlobalDisable();
    suspended := c.Delivery(source, pc);
    c.GlobalEnable();
    resumed := c.Delivery(source, pc);
  }

  /**
   * An interrupt that arrives while its source is disabled is not
   * delivered but stays pending, so enabling the source again delivers it.
   */
  method PendingSurvivesDisable(source: int, fn: HandlerId, aux: AuxData, pc: Address)
      returns (whileDisabled: Option<HandlerCall>, stillPending: bool, reenabled: Option<HandlerCall>)
    requires source in ValidSources
    ensures whileDisabled == None && stillPending
    ensures reenabled == Some(HandlerCall(fn, pc, aux))
  {
    var c := Configured(source, fn, aux);
    var _ := c.DisableSource(source);
    c.Latch(source);
    whileDisabled := c.Delivery(source, pc);
    stillPending := source in c.pending;
    var _ := c.EnableSource(source);
    reenabled := c.Delivery(source, pc);
  }

  /**
   * Registering again replaces the slot, new aux data included; registering
   * NULL empties it, so nothing is delivered even though the source is on.
   */
  method ReplaceThenRemove(source: int, fn1: HandlerId, aux1: AuxData, fn2: HandlerId, aux2: AuxData, pc: Address)
      returns (replaced: Option<HandlerCall>, removed: Option<HandlerCall>)
    requires source in ValidSources
    ensures replaced == Some(HandlerCall(fn2, pc, aux2))
    ensures removed == None
  {
    var c := Configured(source, fn1, aux1);
    c.Latch(source);
    var _ := c.RegisterHandler(source, Some(fn2), aux2);
    replaced := c.Delivery(source, pc);
    var _ := c.RegisterHandler(source, None, NullAux);
    removed := c.Delivery(source, pc);
  }

  /** Configuring one source leaves every other source without delivery. */
  method OtherSourcesUntouched(source: int, other: int, fn: HandlerId, aux: AuxData, pc: Address)
      returns (call: Option<HandlerCall>)
    requires source in ValidSources && other != source
    ensures call == None
  {
    var c := Configured(source, fn, aux);
    c.Latch(other);
    call := c.Delivery(other, pc);
  }
}
