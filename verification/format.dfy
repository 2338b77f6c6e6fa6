/**
 * Python's `str.format` with the two keyword arguments the build script
 * passes, `output_binary` and `fixed_asm`.
 */
module Formatting {
  import opened Base
  import opened Text

  const OutputBinaryName: string := "output_binary"
  const FixedAsmName: string := "fixed_asm"

  /** The replacement fields `{output_binary}` and `{fixed_asm}`. */
  const OutputBinaryField: string := "{" + OutputBinaryName + "}"
  const FixedAsmField: string := "{" + FixedAsmName + "}"

  /** Why `str.format` raises. */
  datatype FormatError =
    | UnknownField(name: string)  // a field other than the two arguments (KeyError for a name)
    | UnclosedField               // ValueError: a '{' without its '}'
    | StrayCloseBrace             // ValueError: a single '}'

  /** Text with no brace, which `str.format` copies as it is. */
  predicate NoBraces(s: string)
  {
    forall i | 0 <= i < |s| :: s[i] != '{' && s[i] != '}'
  }

  function Prepend(p: string, r: Result<string, FormatError>): Result<string, FormatError>
  {
    match r
    case Ok(s) => Ok(p + s)
    case Err(e) => Err(e)
  }

  /**
   * `template.format(output_binary=outputBinary, fixed_asm=fixedAsm)`:
   * '{{' and '}}' stand for one brace, `{output_binary}` and `{fixed_asm}`
   * for the argument values, any other field or an unmatched brace raises.
   * Values are inserted as they are and never scanned again.
   */
  function Format(template: string, outputBinary: string, fixedAsm: string): Result<string, FormatError>
    decreases |template|
  {
    if template == [] then
      Ok([])
    else if template[0] == '{' then
      if |template| > 1 && template[1] == '{' then
        Prepend("{", Format(template[2..], outputBinary, fixedAsm))
      else
        match Find(template[1..], "}")
        case None => Err(UnclosedField)
        case Some(i) =>
          var name := template[1..1 + i];
          var rest := template[i + 2..];
          if name == OutputBinaryName then Prepend(outputBinary, Format(rest, outputBinary, fixedAsm))
          else if name == FixedAsmName then Prepend(fixedAsm, Format(rest, outputBinary, fixedAsm))
          else Err(UnknownField(name))
    else if template[0] == '}' then
      if |template| > 1 && template[1] == '}' then
        Prepend("}", Format(template[2..], outputBinary, fixedAsm))
      else
        Err(StrayCloseBrace)
    else
      Prepend([template[0]], Format(template[1..], outputBinary, fixedAsm))
  }

  /** A build-command template: brace-free text around the two fields, each used once. */
  function Template(head: string, middle: string, tail: string): string
  {
    head + OutputBinaryField + middle + FixedAsmField + tail
  }

  /** Brace-free text is copied through unchanged. */
  lemma {:induction false} FormatLiteral(literal: string, rest: string, outputBinary: string, fixedAsm: string)
    requires NoBraces(literal)
    ensures Format(literal + rest, outputBinary, fixedAsm) == Prepend(literal, Format(rest, outputBinary, fixedAsm))
    decreases |literal|
  {
    if literal == [] {
      assert literal + rest == rest;
      match Format(rest, outputBinary, fixedAsm)
      case Ok(s) => assert literal + s == s;
      case Err(_) =>
    } else {
      assert (literal + rest)[1..] == literal[1..] + rest;
      FormatLiteral(literal[1..], rest, outputBinary, fixedAsm);
      match Format(rest, outputBinary, fixedAsm)
      case Ok(s) => assert [literal[0]] + (literal[1..] + s) == literal + s;
      case Err(_) =>
    }
  }

  /** The first '}' in `s + "}" + rest` is the one after `s` when `s` has none. */
  lemma {:induction false} FindClosingBrace(s: string, rest: string)
    requires '}' !in s
    ensures Find(s + "}" + rest, "}") == Some(|s|)
  {
    var t := s + "}" + rest;
    assert OccursAt(t, "}", |s|);
    forall j: nat | j < |s|
      ensures !OccursAt(t, "}", j)
    {
      assert t[j..j + 1] == [s[j]];
    }
  }

  /** A field naming an argument is replaced by that argument's value. */
  lemma {:induction false} FormatField(name: string, rest: string, outputBinary: string, fixedAsm: string)
    requires name == OutputBinaryName || name == FixedAsmName
    ensures Format("{" + name + "}" + rest, outputBinary, fixedAsm) ==
      Prepend(if name == OutputBinaryName then outputBinary else fixedAsm,
              Format(rest, outputBinary, fixedAsm))
  {
    var t := "{" + name + "}" + rest;
    assert '}' !in name && name[0] != '{';
    assert t[0] == '{' && t[1] == name[0];
    assert t[1..] == name + "}" + rest;
    FindClosingBrace(name, rest);
    assert t[1..1 + |name|] == name;
    assert t[|name| + 2..] == rest;
  }

  /** The part of a template after its first field. */
  lemma {:induction false} FormatAfterFirstField(middle: string, tail: string, outputBinary: string, fixedAsm: string)
    requires NoBraces(middle) && NoBraces(tail)
    ensures Format(middle + FixedAsmField + tail, outputBinary, fixedAsm) == Ok(middle + fixedAsm + tail)
  {
    assert Format(tail, outputBinary, fixedAsm) == Ok(tail) by {
      FormatLiteral(tail, [], outputBinary, fixedAsm);
      assert tail + [] == tail;
    }
    assert Format(FixedAsmField + tail, outputBinary, fixedAsm) == Ok(fixedAsm + tail) by {
      FormatField(FixedAsmName, tail, outputBinary, fixedAsm);
    }
    FormatLiteral(middle, FixedAsmField + tail, outputBinary, fixedAsm);
    assert middle + FixedAsmField + tail == middle + (FixedAsmField + tail);
    assert middle + (fixedAsm + tail) == middle + fixedAsm + tail;
  }

  /** The part of a template from its first field on. */
  lemma {:induction false} FormatFromFirstField(middle: string, tail: string, outputBinary: string, fixedAsm: string)
    requires NoBraces(middle) && NoBraces(tail)
    ensures Format(OutputBinaryField + (middle + FixedAsmField + tail), outputBinary, fixedAsm) ==
      Ok(outputBinary + (middle + fixedAsm + tail))
  {
    FormatAfterFirstField(middle, tail, outputBinary, fixedAsm);
    FormatField(OutputBinaryName, middle + FixedAsmField + tail, outputBinary, fixedAsm);
  }

  /**
   * Formatting a well-formed template substitutes the two paths for the
   * two fields and keeps every other character as it is.
   */
  lemma {:induction false} FormatTemplate(head: string, middle: string, tail: string, outputBinary: string, fixedAsm: string)
    requires NoBraces(head) && NoBraces(middle) && NoBraces(tail)
    ensures Format(Template(head, middle, tail), outputBinary, fixedAsm) ==
      Ok(head + outputBinary + middle + fixedAsm + tail)
  {
    var afterHead := OutputBinaryField + (middle + FixedAsmField + tail);
    assert Template(head, middle, tail) == head + afterHead;
    assert head + (outputBinary + (middle + fixedAsm + tail)) == head + outputBinary + middle + fixedAsm + tail;
    FormatFromFirstField(middle, tail, outputBinary, fixedAsm);
    FormatLiteral(head, afterHead, outputBinary, fixedAsm);
  }

  /** The only '{' of a template built by Template are the two field openers. */
  lemma {:induction false} TemplateOpenBraces(head: string, middle: string, tail: string, j: nat)
    requires NoBraces(head) && NoBraces(middle) && NoBraces(tail)
    requires j < |Template(head, middle, tail)|
    ensures Template(head, middle, tail)[j] == '{' ==>
      j == |head| || j == |head| + |OutputBinaryField| + |middle|
  {
    var t := Template(head, middle, tail);
    var p1 := |head|;
    var p2 := p1 + |OutputBinaryField|;
    var p3 := p2 + |middle|;
    var p4 := p3 + |FixedAsmField|;
    if j < p1 {
      assert t[j] == head[j];
    } else if p1 < j < p2 {
      assert t[j] == OutputBinaryField[j - p1];
    } else if p2 <= j < p3 {
      assert t[j] == middle[j - p2];
    } else if p3 < j < p4 {
      assert t[j] == FixedAsmField[j - p3];
    } else if p4 <= j {
      assert t[j] == tail[j - p4];
    }
  }

  /** A field of a template built by Template occurs only where Template put it. */
  lemma {:induction false} FieldOccurrence(head: string, middle: string, tail: string, j: nat)
    requires NoBraces(head) && NoBraces(middle) && NoBraces(tail)
    ensures var t := Template(head, middle, tail);
      && (OccursAt(t, OutputBinaryField, j) ==> j == |head|)
      && (OccursAt(t, FixedAsmField, j) ==> j == |head| + |OutputBinaryField| + |middle|)
  {
    var t := Template(head, middle, tail);
    var p1 := |head|;
    var p3 := p1 + |OutputBinaryField| + |middle|;
    if j + 2 <= |t| {
      TemplateOpenBraces(head, middle, tail, j);
      assert t[p1 + 1] == OutputBinaryField[1];
      assert t[p3 + 1] == FixedAsmField[1];
      if j + |OutputBinaryField| <= |t| {
        assert t[j..j + |OutputBinaryField|][0] == t[j];
        assert t[j..j + |OutputBinaryField|][1] == t[j + 1];
      }
      if j + |FixedAsmField| <= |t| {
        assert t[j..j + |FixedAsmField|][0] == t[j];
        assert t[j..j + |FixedAsmField|][1] == t[j + 1];
      }
    }
  }

  /**
   * A template built by Template holds `{output_binary}` and `{fixed_asm}`
   * exactly once each, and nowhere else.
   */
  lemma {:induction false} TemplateFieldsOnce(head: string, middle: string, tail: string)
    requires NoBraces(head) && NoBraces(middle) && NoBraces(tail)
    ensures var t := Template(head, middle, tail);
      && OccursAt(t, OutputBinaryField, |head|)
      && OccursAt(t, FixedAsmField, |head| + |OutputBinaryField| + |middle|)
      && (forall j: nat :: OccursAt(t, OutputBinaryField, j) ==> j == |head|)
      && (forall j: nat :: OccursAt(t, FixedAsmField, j) ==> j == |head| + |OutputBinaryField| + |middle|)
  {
    var t := Template(head, middle, tail);
    var p1 := |head|;
    var p3 := p1 + |OutputBinaryField| + |middle|;
    assert t[p1..p1 + |OutputBinaryField|] == OutputBinaryField;
    assert t[p3..p3 + |FixedAsmField|] == FixedAsmField;
    forall j: nat
      ensures OccursAt(t, OutputBinaryField, j) ==> j == p1
      ensures OccursAt(t, FixedAsmField, j) ==> j == p3
    {
      FieldOccurrence(head, middle, tail, j);
    }
  }

  /**
   * Once filled with paths that hold no '{', the command holds no
   * replacement field, and holds both paths verbatim.
   */
  lemma {:induction false} FilledCommandHasNoField(head: string, middle: string, tail: string, outputBinary: string, fixedAsm: string)
    requires NoBraces(head) && NoBraces(middle) && NoBraces(tail)
    requires '{' !in outputBinary && '{' !in fixedAsm
    ensures var cmd := head + outputBinary + middle + fixedAsm + tail;
      && !Contains(cmd, OutputBinaryField) && !Contains(cmd, FixedAsmField)
      && OccursAt(cmd, outputBinary, |head|)
      && OccursAt(cmd, fixedAsm, |head| + |outputBinary| + |middle|)
  {
    var cmd := head + outputBinary + middle + fixedAsm + tail;
    assert '{' !in cmd;
    forall j: nat
      ensures !OccursAt(cmd, OutputBinaryField, j) && !OccursAt(cmd, FixedAsmField, j)
    {
      if j < |cmd| {
        assert cmd[j] != '{';
        if j + |OutputBinaryField| <= |cmd| {
          assert cmd[j..j + |OutputBinaryField|][0] == cmd[j];
        }
        if j + |FixedAsmField| <= |cmd| {
          assert cmd[j..j + |FixedAsmField|][0] == cmd[j];
        }
      }
    }
    assert cmd[|head|..|head| + |outputBinary|] == outputBinary;
    var p := |head| + |outputBinary| + |middle|;
    assert cmd[p..p + |fixedAsm|] == fixedAsm;
  }
}
