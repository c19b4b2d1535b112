/** The `isClick` value of the `events` module: which DOM events count as a click. */
module Events {
  import opened Wrappers

  /**
   * The fields of an event the predicate reads. A key code the event does
   * not carry is `None`.
   */
  datatype Event = Event(kind: string, keyCode: Option<int>, charCode: Option<int>)

  /** `e.keyCode || e.charCode`: the key code unless it is absent or 0, then the character code. */
  function EffectiveCode(e: Event): (c: Option<int>)
    ensures c == e.keyCode || c == e.charCode
    ensures e.keyCode.Some? && e.keyCode.value != 0 ==> c == e.keyCode
    ensures c == e.charCode <== (e.keyCode.None? || e.keyCode == Some(0))
  {
    if e.keyCode.Some? && e.keyCode.value != 0 then e.keyCode else e.charCode
  }

  /** Enter (13) or Space (32). */
  predicate IsActivationKey(c: Option<int>) {
    c == Some(13) || c == Some(32)
  }

  /**
   * A "click", or a "keypress" of Enter or Space. Stated on the event's own
   * fields: a non-zero key code decides alone, otherwise the character code
   * decides, and no other event type is ever a click.
   */
  function IsClick(e: Event): (b: bool)
    ensures e.kind == "click" ==> b
    ensures e.kind != "click" && e.kind != "keypress" ==> !b
    ensures e.kind == "keypress" && e.keyCode.Some? && e.keyCode.value != 0 ==>
      (b <==> e.keyCode.value == 13 || e.keyCode.value == 32)
    ensures e.kind == "keypress" && (e.keyCode.None? || e.keyCode == Some(0)) ==>
      (b <==> e.charCode == Some(13) || e.charCode == Some(32))
  {
    e.kind == "click" || (e.kind == "keypress" && IsActivationKey(EffectiveCode(e)))
  }

  /** A key press of some other key is not a click even when its character code is Enter. */
  lemma OtherKeyWithEnterCharCode(k: int)
    requires k != 0 && k != 13 && k != 32
    ensures !IsClick(Event("keypress", Some(k), Some(13)))
  {
  }
}
