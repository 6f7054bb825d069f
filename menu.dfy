/** The menu as the user sees it and answers it: the labels
    `display_elements` prints, the element a decoded label picks in
    `getline`, and how `getline` classifies a trimmed input line. */
module Menu {
  import opened Wrappers
  import opened Text
  import opened Items
  import opened Labels

  /** `CMD_PREFIX` of the configuration. */
  const CMD_PREFIX: char := '/'

  // ---------------------------------------------------------------------
  // Display numbering and selection
  // ---------------------------------------------------------------------

  /** `display_elements` labels every element that is neither an
      informational message nor an error. */
  predicate Numbered(e: FsElement)
  {
    e.eltType != InformationalMessage && e.eltType != Error
  }

  /** `getline` picks among the elements that are not informational
      messages: error elements are counted here. */
  predicate Selectable(e: FsElement)
  {
    e.eltType != InformationalMessage
  }

  /** Number of labelled elements in `es`. */
  function NumberedCount(es: seq<FsElement>): nat
  {
    if es == [] then 0
    else NumberedCount(es[..|es| - 1]) + (if Numbered(es[|es| - 1]) then 1 else 0)
  }

  /** The label printed in front of `es[i]`, if any: the running counter is
      a `u16` that wraps, as in a release build. */
  function DisplayLabel(es: seq<FsElement>, i: nat): Option<(char, char)>
    requires i < |es|
  {
    if Numbered(es[i]) then Some(NAlpha(NumberedCount(es[..i]) % 0x1_0000)) else None
  }

  /** The numbering loop of `display_elements`. */
  method DisplayLabels(es: seq<FsElement>) returns (labels: seq<Option<(char, char)>>)
    ensures |labels| == |es|
    ensures forall i :: 0 <= i < |es| ==> labels[i] == DisplayLabel(es, i)
  {
    var n: u16 := 0;
    labels := [];
    for i := 0 to |es|
      invariant |labels| == i
      invariant n == NumberedCount(es[..i]) % 0x1_0000
      invariant forall k :: 0 <= k < i ==> labels[k] == DisplayLabel(es, k)
    {
      assert es[..i + 1][..i] == es[..i];
      if Numbered(es[i]) {
        labels := labels + [Some(NAlpha(n))];
        WrapStep(NumberedCount(es[..i]));
        n := (n + 1) % 0x1_0000;
      } else {
        labels := labels + [None];
      }
    }
  }

  /** Incrementing the wrapped counter wraps the incremented count. */
  lemma WrapStep(c: nat)
    ensures (c % 0x1_0000 + 1) % 0x1_0000 == (c + 1) % 0x1_0000
  {
  }

  /** The elements `getline` chooses from, in listing order. */
  function SelectableItems(es: seq<FsElement>): (r: seq<FsElement>)
    ensures |r| <= |es|
    ensures forall k :: 0 <= k < |r| ==> Selectable(r[k]) && r[k] in es
  {
    if es == [] then []
    else
      var r := SelectableItems(es[..|es| - 1]) + (if Selectable(es[|es| - 1]) then [es[|es| - 1]] else []);
      assert forall x :: x in es[..|es| - 1] ==> x in es;
      r
  }

  /** The candidates of a concatenation are those of each part, in order. */
  lemma {:induction false} SelectableItemsAppend(a: seq<FsElement>, b: seq<FsElement>)
    ensures SelectableItems(a + b) == SelectableItems(a) + SelectableItems(b)
  {
    if b != [] {
      var b' := b[..|b| - 1];
      assert (a + b)[..|a + b| - 1] == a + b';
      assert (a + b)[|a + b| - 1] == b[|b| - 1];
      SelectableItemsAppend(a, b');
    } else {
      assert a + b == a;
    }
  }

  /** A single element is a candidate exactly when it is not informational. */
  lemma SelectableItemsOne(x: FsElement)
    ensures SelectableItems([x]) == if Selectable(x) then [x] else []
  {
    assert [x][..0] == [];
  }

  /** `elements.iter().filter(..).nth(id)`. */
  function Select(es: seq<FsElement>, id: nat): (r: Option<FsElement>)
    ensures r.Some? <==> id < |SelectableItems(es)|
    ensures r.Some? ==> Selectable(r.value) && r.value in es
  {
    var items := SelectableItems(es);
    if id < |items| then Some(items[id]) else None
  }

  /** The selectable elements of a prefix come first among those of the
      whole listing. */
  lemma {:induction false} SelectablePrefix(es: seq<FsElement>, j: nat)
    requires j <= |es|
    ensures SelectableItems(es[..j]) <= SelectableItems(es)
  {
    if j < |es| {
      SelectablePrefix(es[..|es| - 1], j);
      assert es[..|es| - 1][..j] == es[..j];
    } else {
      assert es[..j] == es;
    }
  }

  /** A selectable element is picked by the number of selectable elements
      before it: ordinals count selectable elements in listing order. */
  lemma SelectableAt(es: seq<FsElement>, i: nat)
    requires i < |es| && Selectable(es[i])
    ensures Select(es, |SelectableItems(es[..i])|) == Some(es[i])
  {
    SelectablePrefix(es, i + 1);
    assert es[..i + 1][..i] == es[..i];
  }

  /** Without error elements both countings agree. */
  lemma {:induction false} CountsAgree(es: seq<FsElement>)
    requires forall k :: 0 <= k < |es| ==> es[k].eltType != Error
    ensures NumberedCount(es) == |SelectableItems(es)|
  {
    if es != [] {
      CountsAgree(es[..|es| - 1]);
    }
  }

  /** In a listing without error elements, typing back the label printed in
      front of an element (among the first 676) picks that element. */
  lemma LabelPicksItsElement(es: seq<FsElement>, i: nat)
    requires forall k :: 0 <= k < |es| ==> es[k].eltType != Error
    requires i < |es| && Numbered(es[i]) && NumberedCount(es[..i]) < 676
    ensures DisplayLabel(es, i).Some?
    ensures Select(es, AlphaNth(DisplayLabel(es, i).value).value) == Some(es[i])
  {
    var n := NumberedCount(es[..i]);
    assert DisplayLabel(es, i) == Some(NAlpha(n)) by {
      assert n % 0x1_0000 == n;
    }
    DecodeEncode(n);
    CountsAgree(es[..i]);
    SelectableAt(es, i);
  }

  /** The two countings disagree as soon as an error element comes first: the
      element shown as "aa" is the directory, but "aa" picks the error. */
  lemma NumberingMismatch(err: FsElement, dir: FsElement)
    requires err.eltType == Error && dir.eltType == Directory
    ensures DisplayLabel([err, dir], 1) == Some(('a', 'a'))
    ensures Select([err, dir], AlphaNth(('a', 'a')).value) == Some(err)
  {
    assert [err, dir][..1] == [err] && [err][..0] == [];
    assert NumberedCount([err]) == 0;
    assert NAlpha(0) == ('a', 'a');
    assert AlphaNth(('a', 'a')) == Some(0);
    assert SelectableItems([err]) == [err];
    assert SelectableItems([err, dir]) == [err, dir];
  }

  /** After an informational line, error elements are picked in order:
      "aa" the first, "ab" the second. */
  lemma ExampleErrorSelection(info: FsElement, e1: FsElement, e2: FsElement)
    requires info.eltType == InformationalMessage
    requires e1.eltType == Error && e2.eltType == Error
    ensures Select([info, e1, e2], AlphaNth(('a', 'a')).value) == Some(e1)
    ensures Select([info, e1, e2], AlphaNth(('a', 'b')).value) == Some(e2)
    ensures Select([info, e1, e2], 2) == None
  {
    ErrorCandidates(info, e1, e2);
    assert AlphaNth(('a', 'a')) == Some(0);
    assert AlphaNth(('a', 'b')) == Some(1);
  }

  lemma ErrorCandidates(info: FsElement, e1: FsElement, e2: FsElement)
    requires info.eltType == InformationalMessage
    requires e1.eltType == Error && e2.eltType == Error
    ensures SelectableItems([info, e1, e2]) == [e1, e2]
  {
    var es := [info, e1, e2];
    assert es[..2] == [info, e1] && es[..2][..1] == [info] && [info][..0] == [];
    assert SelectableItems([info]) == [];
    assert SelectableItems([info, e1]) == [e1];
  }

  /** Labels of the first 676 numbered elements are pairwise distinct. */
  lemma LabelsDistinct(es: seq<FsElement>, i: nat, j: nat)
    requires i < j < |es| && Numbered(es[i]) && Numbered(es[j])
    requires NumberedCount(es[..j]) < 676
    ensures DisplayLabel(es, i) != DisplayLabel(es, j)
  {
    var a := NumberedCount(es[..i]);
    var b := NumberedCount(es[..j]);
    NumberedCountGrows(es, i, j);
    assert a % 0x1_0000 == a && b % 0x1_0000 == b;
    DecodeEncode(a);
    DecodeEncode(b);
    assert NAlpha(a) != NAlpha(b);
  }

  lemma {:induction false} NumberedCountGrows(es: seq<FsElement>, i: nat, j: nat)
    requires i < j <= |es| && Numbered(es[i])
    ensures NumberedCount(es[..i]) < NumberedCount(es[..j])
  {
    if j == i + 1 {
      assert es[..j][..i] == es[..i];
    } else {
      NumberedCountGrows(es, i, j - 1);
      assert es[..j][..j - 1] == es[..j - 1];
    }
  }

  // ---------------------------------------------------------------------
  // Classifying an input line
  // ---------------------------------------------------------------------

  /** What `getline` makes of a trimmed line. */
  datatype Input =
    | Cmd(name: string, args: string)      // handed to `command`
    | Pick(ordinal: u16)                   // a decoded two-letter label
    | Ignore                               // silently ignored
    | Crash                                // `chars.next().unwrap()` panics

  function ParseInput(line: string): (r: Input)
    ensures r.Pick? ==> r.ordinal < 676
    ensures r.Crash? ==> |line| == 1
  {
    if |line| > 0 && line[0] == CMD_PREFIX then
      match SplitOnce(line[1..], ' ')
      case Some(parts) => Cmd(parts.0, parts.1)
      case None => Cmd(line[1..], "")
    else if line == "help" then Cmd("h", "")
    else if ByteLen(line) != 2 then Ignore
    else if |line| < 2 then Crash
    else
      match AlphaNth((line[0], line[1]))
      case None => Ignore
      case Some(id) => Pick(id)
  }

  /** Commands are the lines starting with the prefix, and "help". After the
      prefix, the name runs up to the first space and the arguments are the
      rest (empty without a space). */
  lemma CommandLines(line: string)
    ensures ParseInput(line).Cmd? <==> (|line| > 0 && line[0] == CMD_PREFIX) || line == "help"
    ensures |line| > 0 && line[0] == CMD_PREFIX ==>
      var c := ParseInput(line);
      ' ' !in c.name
      && (if ' ' in line[1..] then line == [CMD_PREFIX] + c.name + " " + c.args
          else line == [CMD_PREFIX] + c.name && c.args == "")
    ensures line == "help" ==> ParseInput(line) == Cmd("h", "")
  {
    if |line| > 0 && line[0] == CMD_PREFIX {
      assert line == [CMD_PREFIX] + line[1..];
    } else if line != "help" && ByteLen(line) == 2 {
      ByteLenTwo(line);
    }
  }

  /** A line picks an ordinal exactly when it is two lowercase letters, and
      the ordinal is the one whose label they are. */
  lemma PickLines(line: string)
    ensures ParseInput(line).Pick? <==> |line| == 2 && IsLower(line[0]) && IsLower(line[1])
    ensures ParseInput(line).Pick? ==>
      ParseInput(line).ordinal < 676 && NAlpha(ParseInput(line).ordinal) == (line[0], line[1])
  {
    if |line| == 2 && IsLower(line[0]) && IsLower(line[1]) {
      assert ByteLen(line) == 2 by {
        assert line[1..][0] == line[1] && line[1..][1..] == [];
        assert ByteLen(line[1..]) == Utf8Width(line[1]) + ByteLen(line[1..][1..]);
      }
      assert line != "help";
      EncodeDecode((line[0], line[1]));
    } else if !(|line| > 0 && line[0] == CMD_PREFIX) && line != "help" && ByteLen(line) == 2 {
      ByteLenTwo(line);
    }
  }

  /** The only panic: a line that is a single two-byte character passes the
      byte-length test, and the second character is missing. */
  lemma CrashLines(line: string)
    ensures ParseInput(line) == Crash <==> |line| == 1 && Utf8Width(line[0]) == 2
  {
    if !(|line| > 0 && line[0] == CMD_PREFIX) && line != "help" && ByteLen(line) == 2 {
      ByteLenTwo(line);
    }
    if |line| == 1 && Utf8Width(line[0]) == 2 {
      assert ByteLen(line) == 2 by {
        assert line[1..] == [];
      }
    }
  }

  /** Typing back a printed label (for an ordinal below 676) picks that
      ordinal. */
  lemma LabelRoundTrip(n: u16)
    requires n < 676
    ensures ParseInput([NAlpha(n).0, NAlpha(n).1]) == Pick(n)
  {
    DecodeEncode(n);
    PickLines([NAlpha(n).0, NAlpha(n).1]);
  }

  /** One informational line then two directories: "aa" picks the first
      directory and "ab" the second. */
  lemma ExampleSelection(info: FsElement, d1: FsElement, d2: FsElement)
    requires info.eltType == InformationalMessage
    requires d1.eltType == Directory && d2.eltType == Directory
    ensures ParseInput("aa") == Pick(0) && Select([info, d1, d2], 0) == Some(d1)
    ensures ParseInput("ab") == Pick(1) && Select([info, d1, d2], 1) == Some(d2)
  {
    PickLines("aa");
    PickLines("ab");
    var es := [info, d1, d2];
    assert es[..2] == [info, d1] && [info, d1][..1] == [info] && [info][..0] == [];
    assert SelectableItems([info]) == [];
    assert SelectableItems([info, d1]) == [d1];
    assert SelectableItems(es) == [d1, d2];
  }
}
