/** `ObjectValue.ToString(indent)`: the display form of a runtime object. */
module ObjectValueText {
  import opened Values
  import opened Text

  /** The text of an entry's value: a nested object recursively, none for null,
      and the host's `ToString()` for everything else. */
  function ValueText(display: Value -> string, v: Value, indent: int): string
    requires v.Object? && |v.entries| > 0 ==> indent >= -1
    decreases v, 3
  {
    if v.Object? then ToText(display, v, indent)
    else if v.Null? then "none"
    else display(v)
  }

  /** The entry at position `i`, on a line padded to `indent` (which the
      caller has already incremented). */
  function EntryText(display: Value -> string, v: Value, i: nat, indent: int): string
    requires v.Object? && i < |v.entries| && indent >= 0
    decreases v, 0
  {
    var e := v.entries[i];
    assert e in v.entries;
    Pad(indent) + "[" + display(e.key) + "]: " + ValueText(display, e.value, indent + 1)
  }

  /** The loop over the entries from position `i` on, as the StringBuilder sees
      it: each entry followed by ",\n" unless it is the last one. */
  function EntriesFrom(display: Value -> string, v: Value, i: nat, indent: int): string
    requires v.Object? && i <= |v.entries| && indent >= 0
    decreases v, 1, |v.entries| - i
  {
    if i == |v.entries| then ""
    else
      EntryText(display, v, i, indent)
      + (if i != |v.entries| - 1 then ",\n" else "")
      + EntriesFrom(display, v, i + 1, indent)
  }

  /** `ObjectValue.ToString(indent)`. The closing brace is never padded. */
  function ToText(display: Value -> string, v: Value, indent: int): string
    requires v.Object?
    requires |v.entries| > 0 ==> indent >= -1
    decreases v, 2
  {
    if |v.entries| == 0 then "{" + "}"
    else "{" + "\n" + EntriesFrom(display, v, 0, indent + 1) + "\n" + "}"
  }

  /** The text of every entry, in order. */
  function EntryTexts(display: Value -> string, v: Value, indent: int): (ts: seq<string>)
    requires v.Object? && indent >= 0
    ensures |ts| == |v.entries|
    ensures forall i :: 0 <= i < |ts| ==> ts[i] == EntryText(display, v, i, indent)
  {
    seq(|v.entries|, i requires 0 <= i < |v.entries| => EntryText(display, v, i, indent))
  }

  lemma {:induction false} EntriesFromJoin(display: Value -> string, v: Value, i: nat, indent: int)
    requires v.Object? && i <= |v.entries| && indent >= 0
    ensures EntriesFrom(display, v, i, indent) == Join(",\n", EntryTexts(display, v, indent)[i..])
    decreases |v.entries| - i
  {
    var ts := EntryTexts(display, v, indent);
    if i < |v.entries| {
      EntriesFromJoin(display, v, i + 1, indent);
      assert ts[i..][1..] == ts[i + 1..];
    }
  }

  /** The layout: an empty object is `{}`; otherwise the entries in the order
      of the pairs, one per line, separated by ",\n", between "{\n" and "\n}". */
  lemma ToTextLayout(display: Value -> string, v: Value, indent: int)
    requires v.Object?
    requires |v.entries| > 0 ==> indent >= -1
    ensures |v.entries| == 0 ==> ToText(display, v, indent) == "{}"
    ensures |v.entries| > 0 ==>
      ToText(display, v, indent) == "{\n" + Join(",\n", EntryTexts(display, v, indent + 1)) + "\n}"
  {
    if |v.entries| > 0 {
      EntriesFromJoin(display, v, 0, indent + 1);
      assert EntryTexts(display, v, indent + 1)[0..] == EntryTexts(display, v, indent + 1);
    }
  }

  /** Each entry line is indented two spaces per level below the caller's
      indent, shows the key in brackets, and renders a nested object one
      level deeper; a null value shows as none. */
  lemma EntryLine(display: Value -> string, v: Value, i: nat, indent: int)
    requires v.Object? && i < |v.entries| && indent >= -1
    ensures var t := EntryText(display, v, i, indent + 1);
      && StartsWith(t, Pad(indent + 1) + "[" + display(v.entries[i].key) + "]: ")
      && (v.entries[i].value.Null? ==> EndsWith(t, "]: none"))
      && (v.entries[i].value.Object? ==>
            EndsWith(t, ToText(display, v.entries[i].value, indent + 2)))
  {
    var t := EntryText(display, v, i, indent + 1);
    var p := Pad(indent + 1) + "[" + display(v.entries[i].key) + "]: ";
    assert t[..|p|] == p;
  }

  /** A one-entry object at indent 0 with a null value. */
  lemma SingleEntryExample(display: Value -> string, k: Value)
    requires display(k) == "a"
    ensures ToText(display, Object(0, [Entry(k, Null)]), 0) == "{\n  [a]: none\n}"
  {
    var v := Object(0, [Entry(k, Null)]);
    assert EntriesFrom(display, v, 1, 1) == "";
    assert Pad(1) == "  ";
    assert EntryText(display, v, 0, 1) == "  [a]: none";
    assert EntriesFrom(display, v, 0, 1) == "  [a]: none";
  }
}
