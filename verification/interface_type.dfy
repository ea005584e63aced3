/** `InterfaceType`: construction, the index type, and the display form. */
module Interfaces {
  import opened Wrappers
  import opened Values
  import opened Types
  import opened Text

  /** The name an interface gets when none is given. */
  const DefaultName := "Object"

  /** `new InterfaceType(members, indexSignatures, name)`. */
  function MakeInterface(members: seq<MemberSignature>, indexSignatures: seq<IndexSignature>, name: Option<string>): (t: BaseType)
    ensures t.InterfaceType? && IsSingular(t)
    ensures t.members == members && t.indexSignatures == indexSignatures
    ensures name.Some? ==> Name(t) == name.value
    ensures name.None? ==> Name(t) == DefaultName
  {
    InterfaceType(members, indexSignatures, name.GetOr(DefaultName))
  }

  /** The literal type a member is keyed by. */
  function MemberKey(m: MemberSignature): (k: BaseType)
    ensures k.LiteralType? && k.value == m.key
  {
    LiteralType(m.key, m.keyPrimitive)
  }

  /** The primitive type an index signature is keyed by. */
  function IndexKey(s: IndexSignature): (k: BaseType)
    ensures k.SingularType? && k.name == s.key
  {
    SingularType(s.key)
  }

  function Keys(t: BaseType): (ks: seq<BaseType>)
    requires t.InterfaceType?
    ensures |ks| == |t.members| + |t.indexSignatures|
  {
    seq(|t.members|, i requires 0 <= i < |t.members| => MemberKey(t.members[i]))
    + seq(|t.indexSignatures|, i requires 0 <= i < |t.indexSignatures| => IndexKey(t.indexSignatures[i]))
  }

  /** `InterfaceType.IndexType`: the single key when there is exactly one, else
      the union of the member keys followed by the index-signature keys. */
  function IndexType(t: BaseType): (k: BaseType)
    requires t.InterfaceType?
  {
    if |t.members| + |t.indexSignatures| == 1 then
      if |t.members| == 1 then MemberKey(t.members[0]) else IndexKey(t.indexSignatures[0])
    else UnionType(Keys(t))
  }

  /** Every key of the interface, and nothing else, is assignable to its index
      type, once there is more than one; a lone key is the index type itself. */
  lemma IndexTypeCoversKeys(t: BaseType)
    requires t.InterfaceType?
    ensures |Keys(t)| == 1 ==> IndexType(t) == Keys(t)[0]
    ensures |Keys(t)| != 1 ==> IndexType(t) == UnionType(Keys(t))
    ensures forall k :: k in Keys(t) ==> IsAssignableTo(k, IndexType(t))
  {
    var ks := Keys(t);
    if |ks| == 1 {
      forall k | k in ks ensures IsAssignableTo(k, IndexType(t)) {
        assert k == ks[0];
        Reflexive(k);
      }
    } else {
      forall k | k in ks ensures IsAssignableTo(k, IndexType(t)) {
        Reflexive(k);
        UnionTargetSwaps(k, ks);
        assert SomeAssignable(ks, k) by { MemberAssignable(ks, k); }
      }
    }
  }

  /** A literal or singular key is assignable to itself. */
  lemma Reflexive(k: BaseType)
    requires k.LiteralType? || k.SingularType?
    ensures IsAssignableTo(k, k)
  {
  }

  lemma {:induction false} MemberAssignable(ks: seq<BaseType>, k: BaseType)
    requires k in ks && (k.LiteralType? || k.SingularType?)
    ensures SomeAssignable(ks, k)
  {
    if ks[0] == k {
      Reflexive(k);
    } else {
      MemberAssignable(ks[1..], k);
    }
  }

  predicate IsEmpty(t: BaseType)
    requires t.InterfaceType?
  {
    |t.indexSignatures| == 0 && |t.members| == 0
  }

  /** The indent of the entry lines: one deeper when there is any entry. */
  function Inner(t: BaseType, indent: int): int
    requires t.InterfaceType?
  {
    if IsEmpty(t) then indent else indent + 1
  }

  /** The indent of the closing brace. As written, the method always
      decrements the (possibly incremented) indent; `corrected` undoes only the
      increment, the way `ObjectValue.ToString` does. */
  function Closing(t: BaseType, indent: int, corrected: bool): int
    requires t.InterfaceType?
  {
    if corrected then indent else Inner(t, indent) - 1
  }

  /** The pad counts the rendering uses are never negative. */
  predicate Renderable(t: BaseType, indent: int, corrected: bool)
    requires t.InterfaceType?
  {
    Inner(t, indent) >= 0 && Closing(t, indent, corrected) >= 0
  }

  /** How the host renders a type (`ToString(colors)`) and a key value (`ToString()`). */
  datatype Show = Show(showType: (BaseType, bool) -> string, showValue: Value -> string)

  /** The text after `: ` of an entry: a nested interface one level deeper,
      anything else as the host renders it. */
  function ValueText(sh: Show, vt: BaseType, colors: bool, indent: int, corrected: bool): string
    requires vt.InterfaceType? ==> indent >= 1
    decreases vt, 3
  {
    if vt.InterfaceType? then Render(sh, vt, colors, indent, corrected)
    else sh.showType(vt, colors)
  }

  /** The index-signature line at position `i`, without its leading newline. */
  function SignatureLine(sh: Show, t: BaseType, i: nat, colors: bool, inner: int, corrected: bool): string
    requires t.InterfaceType? && i < |t.indexSignatures| && inner >= 0
    decreases t, 0
  {
    var s := t.indexSignatures[i];
    assert s in t.indexSignatures;
    Pad(inner) + "[" + (if colors then "[" else "") + sh.showType(IndexKey(s), false)
    + (if colors then "]" else "") + "]: " + ValueText(sh, s.valueType, colors, inner + 1, corrected) + ";"
  }

  /** The member line at position `i`, without its leading newline. */
  function MemberLine(sh: Show, t: BaseType, i: nat, colors: bool, inner: int, corrected: bool): string
    requires t.InterfaceType? && i < |t.members| && inner >= 0
    decreases t, 0
  {
    var m := t.members[i];
    assert m in t.members;
    Pad(inner) + (if m.isMutable then "mut " else "") + sh.showValue(m.key) + ": "
    + ValueText(sh, m.valueType, colors, inner + 1, corrected) + ";"
  }

  /** The first loop, from position `i` on: a newline before every line. */
  function SignaturesFrom(sh: Show, t: BaseType, i: nat, colors: bool, inner: int, corrected: bool): string
    requires t.InterfaceType? && i <= |t.indexSignatures| && inner >= 0
    decreases t, 1, |t.indexSignatures| - i
  {
    if i == |t.indexSignatures| then ""
    else "\n" + SignatureLine(sh, t, i, colors, inner, corrected)
         + SignaturesFrom(sh, t, i + 1, colors, inner, corrected)
  }

  /** The second loop, from position `i` on. */
  function MembersFrom(sh: Show, t: BaseType, i: nat, colors: bool, inner: int, corrected: bool): string
    requires t.InterfaceType? && i <= |t.members| && inner >= 0
    decreases t, 1, |t.members| - i
  {
    if i == |t.members| then ""
    else "\n" + MemberLine(sh, t, i, colors, inner, corrected)
         + MembersFrom(sh, t, i + 1, colors, inner, corrected)
  }

  function Header(t: BaseType): string
    requires t.InterfaceType?
  {
    if t.name == DefaultName then "" else t.name + " "
  }

  /** `InterfaceType.ToString(colors, indent)`, with the closing indent chosen by `corrected`. */
  function Render(sh: Show, t: BaseType, colors: bool, indent: int, corrected: bool): string
    requires t.InterfaceType? && Renderable(t, indent, corrected)
    decreases t, 2
  {
    var inner := Inner(t, indent);
    Header(t) + "{"
    + SignaturesFrom(sh, t, 0, colors, inner, corrected)
    + MembersFrom(sh, t, 0, colors, inner, corrected)
    + "\n" + Pad(Closing(t, indent, corrected)) + "}"
  }

  /** The text between the braces' lines: the two loops. */
  function Body(sh: Show, t: BaseType, colors: bool, inner: int, corrected: bool): string
    requires t.InterfaceType? && inner >= 0
  {
    SignaturesFrom(sh, t, 0, colors, inner, corrected) + MembersFrom(sh, t, 0, colors, inner, corrected)
  }

  lemma RenderParts(sh: Show, t: BaseType, colors: bool, indent: int, corrected: bool)
    requires t.InterfaceType? && Renderable(t, indent, corrected)
    ensures Render(sh, t, colors, indent, corrected)
      == (Header(t) + "{") + Body(sh, t, colors, Inner(t, indent), corrected) + ("\n" + Pad(Closing(t, indent, corrected)) + "}")
  {
  }

  /** The method as written: `None` where `Enumerable.Repeat` is given a
      negative count and throws. */
  function RenderAsWritten(sh: Show, t: BaseType, colors: bool, indent: int): (r: Option<string>)
    requires t.InterfaceType?
    ensures r.Some? <==> Renderable(t, indent, false)
  {
    if Renderable(t, indent, false) then Some(Render(sh, t, colors, indent, false)) else None
  }

  /** The method as evidently intended: the closing brace goes back to the indent it came in with. */
  function RenderCorrected(sh: Show, t: BaseType, colors: bool, indent: int): string
    requires t.InterfaceType? && indent >= 0
  {
    Render(sh, t, colors, indent, true)
  }

  /** The entry lines, index signatures first, each without its newline. */
  function EntryLines(sh: Show, t: BaseType, colors: bool, inner: int, corrected: bool): (ls: seq<string>)
    requires t.InterfaceType? && inner >= 0
    ensures |ls| == |t.indexSignatures| + |t.members|
  {
    seq(|t.indexSignatures|, i requires 0 <= i < |t.indexSignatures| => SignatureLine(sh, t, i, colors, inner, corrected))
    + seq(|t.members|, i requires 0 <= i < |t.members| => MemberLine(sh, t, i, colors, inner, corrected))
  }

  lemma {:induction false} SignaturesFromPrefixed(sh: Show, t: BaseType, i: nat, colors: bool, inner: int, corrected: bool)
    requires t.InterfaceType? && i <= |t.indexSignatures| && inner >= 0
    ensures SignaturesFrom(sh, t, i, colors, inner, corrected)
      == Prefixed("\n", EntryLines(sh, t, colors, inner, corrected)[i..|t.indexSignatures|])
    decreases |t.indexSignatures| - i
  {
    if i < |t.indexSignatures| {
      SignaturesFromPrefixed(sh, t, i + 1, colors, inner, corrected);
      var ls := EntryLines(sh, t, colors, inner, corrected);
      assert ls[i..|t.indexSignatures|][1..] == ls[i + 1..|t.indexSignatures|];
    }
  }

  lemma {:induction false} MembersFromPrefixed(sh: Show, t: BaseType, i: nat, colors: bool, inner: int, corrected: bool)
    requires t.InterfaceType? && i <= |t.members| && inner >= 0
    ensures MembersFrom(sh, t, i, colors, inner, corrected)
      == Prefixed("\n", EntryLines(sh, t, colors, inner, corrected)[|t.indexSignatures| + i..])
    decreases |t.members| - i
  {
    if i < |t.members| {
      MembersFromPrefixed(sh, t, i + 1, colors, inner, corrected);
      var ls := EntryLines(sh, t, colors, inner, corrected);
      assert ls[|t.indexSignatures| + i..][1..] == ls[|t.indexSignatures| + i + 1..];
    }
  }

  /** The reference layout: the header and `{` on the first line, one line per
      index signature and then one per member, the closing `}` on the last
      line, lines joined by newlines. */
  lemma RenderLayout(sh: Show, t: BaseType, colors: bool, indent: int, corrected: bool)
    requires t.InterfaceType? && Renderable(t, indent, corrected)
    ensures Render(sh, t, colors, indent, corrected)
      == Join("\n", [Header(t) + "{"] + EntryLines(sh, t, colors, Inner(t, indent), corrected)
                    + [Pad(Closing(t, indent, corrected)) + "}"])
  {
    var inner := Inner(t, indent);
    var ls := EntryLines(sh, t, colors, inner, corrected);
    BodyLines(sh, t, colors, inner, corrected);
    JoinFramed("\n", Header(t) + "{", ls, Pad(Closing(t, indent, corrected)) + "}");
    RenderParts(sh, t, colors, indent, corrected);
  }

  /** An index-signature line is padded to the entry indent, shows the key
      type in brackets, doubled when `colors` is set, and ends in `;`; a
      nested interface value is rendered one level deeper. */
  lemma SignatureLineShape(sh: Show, t: BaseType, i: nat, colors: bool, inner: int, corrected: bool)
    requires t.InterfaceType? && i < |t.indexSignatures| && inner >= 0
    ensures var l := SignatureLine(sh, t, i, colors, inner, corrected);
      var key := sh.showType(IndexKey(t.indexSignatures[i]), false);
      && (colors ==> StartsWith(l, Pad(inner) + "[[" + key + "]]: "))
      && (!colors ==> StartsWith(l, Pad(inner) + "[" + key + "]: "))
      && EndsWith(l, ";")
  {
    var sig := t.indexSignatures[i];
    var key := sh.showType(IndexKey(sig), false);
    var p := Pad(inner) + (if colors then "[[" else "[") + key + (if colors then "]]: " else "]: ");
    var v := ValueText(sh, sig.valueType, colors, inner + 1, corrected);
    assert SignatureLine(sh, t, i, colors, inner, corrected) == p + v + ";";
    Framed(p, v, ";");
  }

  /** A nested interface in an index signature closes the line with its own
      rendering at the next indent, then `;`. */
  lemma SignatureLineNested(sh: Show, t: BaseType, i: nat, colors: bool, inner: int, corrected: bool)
    requires t.InterfaceType? && i < |t.indexSignatures| && inner >= 0
    requires t.indexSignatures[i].valueType.InterfaceType?
    ensures Renderable(t.indexSignatures[i].valueType, inner + 1, corrected)
    ensures EndsWith(SignatureLine(sh, t, i, colors, inner, corrected),
                     "]: " + Render(sh, t.indexSignatures[i].valueType, colors, inner + 1, corrected) + ";")
  {
    var sig := t.indexSignatures[i];
    var p := Pad(inner) + "[" + (if colors then "[" else "") + sh.showType(IndexKey(sig), false) + (if colors then "]" else "");
    var v := ValueText(sh, sig.valueType, colors, inner + 1, corrected);
    assert SignatureLine(sh, t, i, colors, inner, corrected) == p + "]: " + v + ";";
    Framed4(p, "]: ", v, ";");
  }

  /** A member line is padded to the entry indent, starts with `mut ` before
      the key when the member is mutable and with the key itself otherwise,
      and ends in `;`. */
  lemma MemberLineShape(sh: Show, t: BaseType, i: nat, colors: bool, inner: int, corrected: bool)
    requires t.InterfaceType? && i < |t.members| && inner >= 0
    ensures var l := MemberLine(sh, t, i, colors, inner, corrected);
      var key := sh.showValue(t.members[i].key);
      && (t.members[i].isMutable ==> StartsWith(l, Pad(inner) + "mut " + key + ": "))
      && (!t.members[i].isMutable ==> StartsWith(l, Pad(inner) + key + ": "))
      && EndsWith(l, ";")
  {
    var m := t.members[i];
    var p := Pad(inner) + (if m.isMutable then "mut " else "") + sh.showValue(m.key) + ": ";
    var v := ValueText(sh, m.valueType, colors, inner + 1, corrected);
    assert MemberLine(sh, t, i, colors, inner, corrected) == p + v + ";";
    Framed(p, v, ";");
  }

  /** A member whose value type is an interface renders it at the next
      indent after `: `; any other value type is shown as the host renders it. */
  lemma MemberLineValue(sh: Show, t: BaseType, i: nat, colors: bool, inner: int, corrected: bool)
    requires t.InterfaceType? && i < |t.members| && inner >= 0
    ensures var vt := t.members[i].valueType;
      vt.InterfaceType? ==>
        && Renderable(vt, inner + 1, corrected)
        && EndsWith(MemberLine(sh, t, i, colors, inner, corrected), ": " + Render(sh, vt, colors, inner + 1, corrected) + ";")
    ensures var vt := t.members[i].valueType;
      !vt.InterfaceType? ==>
        EndsWith(MemberLine(sh, t, i, colors, inner, corrected), ": " + sh.showType(vt, colors) + ";")
  {
    var m := t.members[i];
    var p := Pad(inner) + (if m.isMutable then "mut " else "") + sh.showValue(m.key);
    var v := ValueText(sh, m.valueType, colors, inner + 1, corrected);
    assert MemberLine(sh, t, i, colors, inner, corrected) == p + ": " + v + ";";
    Framed4(p, ": ", v, ";");
  }

  lemma BodyLines(sh: Show, t: BaseType, colors: bool, inner: int, corrected: bool)
    requires t.InterfaceType? && inner >= 0
    ensures Body(sh, t, colors, inner, corrected) == Prefixed("\n", EntryLines(sh, t, colors, inner, corrected))
  {
    var ls := EntryLines(sh, t, colors, inner, corrected);
    var n := |t.indexSignatures|;
    SignaturesFromPrefixed(sh, t, 0, colors, inner, corrected);
    MembersFromPrefixed(sh, t, 0, colors, inner, corrected);
    assert ls == ls[0..n] + ls[n + 0..];
    PrefixedAppend("\n", ls[0..n], ls[n + 0..]);
  }

  /** The code as written throws for an empty interface at the default indent
      0: the closing pad count is -1. */
  lemma EmptyInterfaceThrows(sh: Show, colors: bool)
    ensures RenderAsWritten(sh, MakeInterface([], [], None), colors, 0).None?
  {
  }

  /** Every rendering starts with the header and its brace and ends with the
      closing brace on a line of its own. */
  lemma RenderFrame(sh: Show, t: BaseType, colors: bool, indent: int, corrected: bool)
    requires t.InterfaceType? && Renderable(t, indent, corrected)
    ensures StartsWith(Render(sh, t, colors, indent, corrected), Header(t) + "{")
    ensures EndsWith(Render(sh, t, colors, indent, corrected), "\n" + Pad(Closing(t, indent, corrected)) + "}")
  {
    var h := Header(t) + "{";
    var b := Body(sh, t, colors, Inner(t, indent), corrected);
    var c := "\n" + Pad(Closing(t, indent, corrected)) + "}";
    RenderParts(sh, t, colors, indent, corrected);
    Framed(h, b, c);
  }

  /** As written, a non-empty interface renders from indent 0 on and closes at
      that indent; an empty one renders only from indent 1 on and closes one
      level further out. */
  lemma AsWrittenDefinedness(sh: Show, t: BaseType, colors: bool, indent: int)
    requires t.InterfaceType?
    ensures !IsEmpty(t) ==> (RenderAsWritten(sh, t, colors, indent).Some? <==> indent >= 0)
    ensures IsEmpty(t) ==> (RenderAsWritten(sh, t, colors, indent).Some? <==> indent >= 1)
    ensures !IsEmpty(t) && indent >= 0 ==>
      EndsWith(RenderAsWritten(sh, t, colors, indent).value, "\n" + Pad(indent) + "}")
    ensures IsEmpty(t) && indent >= 1 ==>
      EndsWith(RenderAsWritten(sh, t, colors, indent).value, "\n" + Pad(indent - 1) + "}")
  {
    if Renderable(t, indent, false) {
      RenderFrame(sh, t, colors, indent, false);
    }
  }

  /** The corrected rendering is defined from indent 0 on and closes at the
      indent it was given; an empty interface is a brace pair on two lines. */
  lemma CorrectedClosesAtIndent(sh: Show, t: BaseType, colors: bool, indent: int)
    requires t.InterfaceType? && indent >= 0
    ensures EndsWith(RenderCorrected(sh, t, colors, indent), "\n" + Pad(indent) + "}")
    ensures StartsWith(RenderCorrected(sh, t, colors, indent), Header(t) + "{")
    ensures IsEmpty(t) ==> RenderCorrected(sh, t, colors, indent) == Header(t) + "{\n" + Pad(indent) + "}"
  {
    RenderFrame(sh, t, colors, indent, true);
    if IsEmpty(t) {
      RenderParts(sh, t, colors, indent, true);
      assert Body(sh, t, colors, Inner(t, indent), true) == "";
    }
  }
}
