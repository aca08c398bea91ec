/** `appendHairSpace`, the children transformer of the Android text patch: it
    appends a hair space (U+200A) to the last string of a text's children so the
    final glyph is not clipped. Children are strings, arrays of children, or
    anything else (numbers, elements, `null`), which it leaves alone. */
module TextPatch {
  import Text
  import Js

  const HairSpace: char := '\U{200A}'

  /** `/\s$/.test(s)`. */
  predicate EndsWithSpace(s: string)
  {
    s != [] && Text.IsSpace(s[|s| - 1])
  }

  /** Following last elements, the children end in a string. */
  predicate Patchable(v: Js.Value)
    decreases v
  {
    match v
    case Str(_) => true
    case Arr(items) => items != [] && Patchable(items[|items| - 1])
    case _ => false
  }

  /** The string the children end in, for patchable children. */
  function LastString(v: Js.Value): string
    requires Patchable(v)
    decreases v
  {
    match v
    case Str(s) => s
    case Arr(items) => LastString(items[|items| - 1])
  }

  /** `appendHairSpace`. An unchanged last element gives back the same array; value
      equality stands for the `===` test, since a copy is made only when the last
      element changed. */
  function AppendHairSpace(v: Js.Value): (r: Js.Value)
    decreases v
  {
    match v
    case Str(s) => if EndsWithSpace(s) then v else Js.Str(s + [HairSpace])
    case Arr(items) =>
      if items == [] then v
      else
        var last := items[|items| - 1];
        var patched := AppendHairSpace(last);
        if patched == last then v
        else Js.Arr(items[..|items| - 1] + [patched])
    case _ => v
  }

  /** Strings: one hair space is appended unless the string already ends in
      whitespace; `""` becomes a lone hair space. */
  lemma AppendHairSpaceString(s: string)
    ensures AppendHairSpace(Js.Str(s)) == (if EndsWithSpace(s) then Js.Str(s) else Js.Str(s + [HairSpace]))
    ensures AppendHairSpace(Js.Str("")) == Js.Str([HairSpace])
  {
  }

  /** The shape is kept: non-patchable children come back unchanged, arrays keep their
      length and every element but the last, and patchable children then end in
      whitespace, after exactly one appended hair space unless they already did. */
  lemma {:induction false} AppendHairSpaceShape(v: Js.Value)
    ensures !Patchable(v) ==> AppendHairSpace(v) == v
    ensures v.Arr? ==> AppendHairSpace(v).Arr? && |AppendHairSpace(v).items| == |v.items|
    ensures v.Arr? && v.items != [] ==>
              AppendHairSpace(v).items[..|v.items| - 1] == v.items[..|v.items| - 1]
    ensures Patchable(v) ==> Patchable(AppendHairSpace(v)) && EndsWithSpace(LastString(AppendHairSpace(v)))
    ensures Patchable(v) ==>
              LastString(AppendHairSpace(v)) ==
                (if EndsWithSpace(LastString(v)) then LastString(v) else LastString(v) + [HairSpace])
    decreases v
  {
    match v
    case Str(s) =>
      assert Text.IsSpace(HairSpace);
    case Arr(items) =>
      if items != [] {
        var last := items[|items| - 1];
        AppendHairSpaceShape(last);
        var patched := AppendHairSpace(last);
        if patched != last {
          var r := items[..|items| - 1] + [patched];
          assert r[|r| - 1] == patched;
          assert r[..|items| - 1] == items[..|items| - 1];
        }
      }
    case _ =>
  }

  /** Patching twice is patching once: the hair space is itself whitespace. */
  lemma {:induction false} AppendHairSpaceIdempotent(v: Js.Value)
    ensures AppendHairSpace(AppendHairSpace(v)) == AppendHairSpace(v)
    decreases v
  {
    match v
    case Str(s) =>
      assert Text.IsSpace(HairSpace);
    case Arr(items) =>
      if items != [] {
        var last := items[|items| - 1];
        var patched := AppendHairSpace(last);
        AppendHairSpaceIdempotent(last);
        if patched != last {
          var r := items[..|items| - 1] + [patched];
          assert r[|r| - 1] == patched;
        }
      }
    case _ =>
  }
}
