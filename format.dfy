/**
 * The registry's file format: four lines per item (a labelled name line, a
 * labelled description line, a labelled contact line and a "---" separator),
 * and the scanner that reads items back by cutting fixed-width labels off.
 */
module Format {
  import opened Items
  import opened Lines

  const NameLabel: string := "物品名称: "
  const DescriptionLabel: string := "物品描述: "
  const ContactLabel: string := "联系人信息: "
  const Separator: string := "---"

  /** The substr offsets the reader uses to cut each label off its line. */
  const NameOffset: nat := 6
  const DescriptionOffset: nat := 6
  const ContactOffset: nat := 7

  datatype Result<T> = Ok(value: T) | Err(error: LoadError)

  /**
   * Why reading a file fails: the line cut for a description or a contact is
   * shorter than the offset, so substr throws out_of_range.
   */
  datatype LoadError = OutOfRange

  /** Each label is exactly as wide as the offset the reader cuts, in characters. */
  lemma LabelWidths()
    ensures |NameLabel| == NameOffset
    ensures |DescriptionLabel| == DescriptionOffset
    ensures |ContactLabel| == ContactOffset
    ensures NoLineBreak(NameLabel) && NoLineBreak(DescriptionLabel)
    ensures NoLineBreak(ContactLabel) && NoLineBreak(Separator)
  {
  }

  predicate FieldsHaveNoLineBreak(x: Item) {
    NoLineBreak(x.name) && NoLineBreak(x.description) && NoLineBreak(x.contactInfo)
  }

  predicate NoLineBreaks(items: seq<Item>) {
    forall i :: 0 <= i < |items| ==> FieldsHaveNoLineBreak(items[i])
  }

  /**
   * The four lines written for one item: the name line starts with the name
   * label, and cutting each of the first three lines at the reader's offset
   * gives back the field written on it.
   */
  function RecordLines(x: Item): (lines: seq<string>)
    ensures |lines| == 4 && lines[3] == Separator
    ensures StartsWith(lines[0], NameLabel) && lines[0][NameOffset..] == x.name
    ensures |lines[1]| >= DescriptionOffset && lines[1][DescriptionOffset..] == x.description
    ensures |lines[2]| >= ContactOffset && lines[2][ContactOffset..] == x.contactInfo
  {
    LabelWidths();
    [NameLabel + x.name, DescriptionLabel + x.description, ContactLabel + x.contactInfo, Separator]
  }

  /** The lines written for the whole store, item by item in store order. */
  function Serialize(items: seq<Item>): (lines: seq<string>)
    ensures |lines| == 4 * |items|
  {
    if items == [] then [] else RecordLines(items[0]) + Serialize(items[1..])
  }

  /**
   * The file text the store is saved as. It ends in a line break unless the
   * store is empty, and when no field holds a line break, getline reads back
   * exactly the serialised lines.
   */
  function Encode(items: seq<Item>): (text: string)
    ensures EndsWithLineBreak(text) <==> items != []
    ensures NoLineBreaks(items) ==> SplitLines(text) == Serialize(items)
  {
    SerializedLinesReadBack(items);
    Render(Serialize(items))
  }

  /** Saving one more item appends its four labelled lines to the text. */
  lemma EncodeAppend(items: seq<Item>, x: Item)
    ensures Encode(items + [x]) ==
            Encode(items) + NameLabel + x.name + "\n" + DescriptionLabel + x.description + "\n" +
            ContactLabel + x.contactInfo + "\n" + Separator + "\n"
  {
    var s := Serialize(items);
    var a, b, c := NameLabel + x.name, DescriptionLabel + x.description, ContactLabel + x.contactInfo;
    assert Serialize([x]) == RecordLines(x);
    SerializeAppend(items, [x]);
    assert RecordLines(x) == [a, b, c, Separator];
    RenderSnoc4(s, a, b, c, Separator);
    var t := Render(s);
    assert t + a == t + NameLabel + x.name;
    assert t + a + "\n" + b == t + a + "\n" + DescriptionLabel + x.description;
    assert t + a + "\n" + b + "\n" + c == t + a + "\n" + b + "\n" + ContactLabel + x.contactInfo;
  }

  /** Puts already-read items in front of what the rest of the file yields. */
  function Prepend(xs: seq<Item>, r: Result<seq<Item>>): (p: Result<seq<Item>>)
    ensures p.Ok? <==> r.Ok?
  {
    match r
    case Ok(ys) => Ok(xs + ys)
    case Err(e) => Err(e)
  }

  lemma PrependAppend(xs: seq<Item>, ys: seq<Item>, r: Result<seq<Item>>)
    ensures Prepend([], r) == r
    ensures Prepend(xs, Prepend(ys, r)) == Prepend(xs + ys, r)
  {
    if r.Ok? {
      assert [] + r.value == r.value;
      assert xs + (ys + r.value) == (xs + ys) + r.value;
    }
  }

  /**
   * What the line buffer holds after the getline meant for line i. Past the
   * last line the read fails: when the text ends in a line break the failed
   * read empties the buffer, and when it does not, the stream is already at
   * its end and the buffer keeps the line read before.
   */
  function NextLine(lines: seq<string>, i: nat, before: string, keepsLine: bool): (line: string)
    ensures i < |lines| ==> line == lines[i]
    ensures i >= |lines| && keepsLine ==> line == before
    ensures i >= |lines| && !keepsLine ==> line == []
  {
    if i < |lines| then lines[i] else if keepsLine then before else ""
  }

  /** The line buffer never holds a line break when neither the lines read nor the buffer before do. */
  lemma NextLineHasNoLineBreak(lines: seq<string>, i: nat, before: string, keepsLine: bool)
    requires NoLineBreak(before)
    requires forall j :: 0 <= j < |lines| ==> NoLineBreak(lines[j])
    ensures NoLineBreak(NextLine(lines, i, before, keepsLine))
  {
  }

  /**
   * The scan of the file's lines: a line that does not start with the name
   * label is skipped; one that does is a record whose name is the rest of that
   * line, whose description is cut at offset 6 from what the next read leaves in
   * the line buffer and whose contact is cut at offset 7 from what the read
   * after that leaves (see NextLine); the line after that (the separator) is
   * skipped unread when present. A cut at an offset past the end of its line is
   * the error OutOfRange. A store read without error has at most one item per
   * line, and none when no line carries the name label.
   */
  function ParseLines(lines: seq<string>, keepsLine: bool): (r: Result<seq<Item>>)
    ensures r.Ok? ==> |r.value| <= |lines|
    ensures (forall i :: 0 <= i < |lines| ==> !StartsWith(lines[i], NameLabel)) ==> r == Ok([])
    decreases |lines|
  {
    if lines == [] then Ok([])
    else if !StartsWith(lines[0], NameLabel) then ParseLines(lines[1..], keepsLine)
    else
      var description := NextLine(lines, 1, lines[0], keepsLine);
      if |description| < DescriptionOffset then Err(OutOfRange)
      else
        var contact := NextLine(lines, 2, description, keepsLine);
        if |contact| < ContactOffset then Err(OutOfRange)
        else
          var x := Item(lines[0][NameOffset..], description[DescriptionOffset..], contact[ContactOffset..]);
          Prepend([x], ParseLines(lines[if |lines| < 4 then |lines| else 4..], keepsLine))
  }

  /**
   * One step of the reader at line i of the file: an unlabelled line is passed
   * over; a name line is read together with what the next two reads leave in
   * the line buffer, and the reader resumes after the separator.
   */
  lemma ParseStepAt(lines: seq<string>, i: nat, keepsLine: bool)
    requires i < |lines|
    ensures !StartsWith(lines[i], NameLabel) ==>
              ParseLines(lines[i..], keepsLine) == ParseLines(lines[i + 1..], keepsLine)
    ensures StartsWith(lines[i], NameLabel) ==>
              var description := NextLine(lines, i + 1, lines[i], keepsLine);
              var contact := NextLine(lines, i + 2, description, keepsLine);
              var next := if i + 4 <= |lines| then i + 4 else |lines|;
              ParseLines(lines[i..], keepsLine) ==
                if |description| < DescriptionOffset || |contact| < ContactOffset then Err(OutOfRange)
                else Prepend([Item(lines[i][NameOffset..], description[DescriptionOffset..], contact[ContactOffset..])],
                             ParseLines(lines[next..], keepsLine))
  {
  }

  /**
   * Reading a file: no file at all reads as an empty store, and every field
   * read is free of line breaks.
   */
  function Load(file: Option<string>): (r: Result<seq<Item>>)
    ensures file.None? ==> r == Ok([])
    ensures r.Ok? ==> NoLineBreaks(r.value)
  {
    match file
    case None => Ok([])
    case Some(text) =>
      var lines := SplitLines(text);
      ParsedFieldsHaveNoLineBreak(lines, !EndsWithLineBreak(text));
      ParseLines(lines, !EndsWithLineBreak(text))
  }

  lemma {:induction false} SerializeAppend(a: seq<Item>, b: seq<Item>)
    ensures Serialize(a + b) == Serialize(a) + Serialize(b)
  {
    if a == [] {
      assert a + b == b;
    } else {
      assert (a + b)[0] == a[0];
      assert (a + b)[1..] == a[1..] + b;
      SerializeAppend(a[1..], b);
    }
  }

  /** Serialising emits, for the item at index i, its four lines at lines 4i to 4i+3. */
  lemma {:induction false} SerializeRecordAt(items: seq<Item>, i: nat)
    requires i < |items|
    ensures Serialize(items)[4 * i..4 * i + 4] == RecordLines(items[i])
  {
    if i > 0 {
      SerializeRecordAt(items[1..], i - 1);
      assert Serialize(items)[4..] == Serialize(items[1..]);
      assert Serialize(items)[4 * i..4 * i + 4] == Serialize(items)[4..][4 * (i - 1)..4 * (i - 1) + 4];
    }
  }

  /** Lines that do not start with the name label are passed over. */
  lemma {:induction false} ParseSkipsUnlabelled(junk: seq<string>, rest: seq<string>, keepsLine: bool)
    requires forall i :: 0 <= i < |junk| ==> !StartsWith(junk[i], NameLabel)
    ensures ParseLines(junk + rest, keepsLine) == ParseLines(rest, keepsLine)
  {
    if junk == [] {
      assert junk + rest == rest;
    } else {
      assert (junk + rest)[0] == junk[0];
      assert (junk + rest)[1..] == junk[1..] + rest;
      ParseSkipsUnlabelled(junk[1..], rest, keepsLine);
    }
  }

  /** The four lines of one record read back as exactly that item. */
  lemma ParseRecord(x: Item, rest: seq<string>, keepsLine: bool)
    ensures ParseLines(RecordLines(x) + rest, keepsLine) == Prepend([x], ParseLines(rest, keepsLine))
  {
  }

  /** Serialised items followed by more lines read back as those items, in order, then the rest. */
  lemma {:induction false} ParseSerialized(items: seq<Item>, rest: seq<string>, keepsLine: bool)
    ensures ParseLines(Serialize(items) + rest, keepsLine) == Prepend(items, ParseLines(rest, keepsLine))
  {
    var tail := ParseLines(rest, keepsLine);
    if items == [] {
      assert Serialize(items) + rest == rest;
      PrependAppend([], [], tail);
    } else {
      var x := items[0];
      var later := Serialize(items[1..]) + rest;
      assert Serialize(items) + rest == RecordLines(x) + later;
      ParseRecord(x, later, keepsLine);
      ParseSerialized(items[1..], rest, keepsLine);
      PrependAppend([x], items[1..], tail);
      assert [x] + items[1..] == items;
    }
  }

  /** Parsing the serialised lines gives back the store. */
  lemma SerializeRoundTrip(items: seq<Item>, keepsLine: bool)
    ensures ParseLines(Serialize(items), keepsLine) == Ok(items)
  {
    ParseSerialized(items, [], keepsLine);
    assert Serialize(items) + [] == Serialize(items);
    assert items + [] == items;
  }

  lemma {:induction false} SerializedLinesHaveNoLineBreak(items: seq<Item>)
    requires NoLineBreaks(items)
    ensures forall i :: 0 <= i < |Serialize(items)| ==> NoLineBreak(Serialize(items)[i])
  {
    if items != [] {
      LabelWidths();
      var x := items[0];
      assert FieldsHaveNoLineBreak(x);
      assert forall i :: 0 <= i < 4 ==> NoLineBreak(RecordLines(x)[i]);
      SerializedLinesHaveNoLineBreak(items[1..]);
    }
  }

  /** Whatever the serialised lines, getline reads them back when no field holds a line break. */
  lemma SerializedLinesReadBack(items: seq<Item>)
    ensures NoLineBreaks(items) ==> SplitLines(Render(Serialize(items))) == Serialize(items)
  {
    if NoLineBreaks(items) {
      SerializedLinesHaveNoLineBreak(items);
      SplitRender(Serialize(items));
    }
  }

  /** Every item read from lines without a '\n' has fields without a '\n'. */
  lemma {:induction false} ParsedFieldsHaveNoLineBreak(lines: seq<string>, keepsLine: bool)
    requires forall i :: 0 <= i < |lines| ==> NoLineBreak(lines[i])
    ensures ParseLines(lines, keepsLine).Ok? ==> NoLineBreaks(ParseLines(lines, keepsLine).value)
  {
    if lines == [] {
    } else if !StartsWith(lines[0], NameLabel) {
      ParsedFieldsHaveNoLineBreak(lines[1..], keepsLine);
    } else {
      ParsedFieldsHaveNoLineBreak(lines[if |lines| < 4 then |lines| else 4..], keepsLine);
    }
  }

  /**
   * Saving and reloading gives back the store exactly when no field holds a
   * line break: a field with a '\n' cannot survive, since every loaded field is
   * cut from a single line.
   */
  lemma FileRoundTrip(items: seq<Item>)
    ensures Load(Some(Encode(items))) == Ok(items) <==> NoLineBreaks(items)
  {
    if NoLineBreaks(items) {
      SerializeRoundTrip(items, !EndsWithLineBreak(Encode(items)));
    }
  }

  /**
   * A file that stops right after a name line and its line break: the read
   * meant for the description fails and empties the line, and cutting it throws.
   */
  lemma StopAfterNameLineBreak(name: string)
    requires NoLineBreak(name)
    ensures Load(Some(NameLabel + name + "\n")) == Err(OutOfRange)
  {
    LabelWidths();
    assert NameLabel + name + "\n" == Render([NameLabel + name]);
    SplitRender([NameLabel + name]);
  }

  /**
   * A file that stops inside a name line without a line break: the failed reads
   * keep that line, so the description is cut from it at 6 and the contact at
   * 7, and an item is loaded unless the name is empty.
   */
  lemma StopInsideNameLine(name: string)
    requires NoLineBreak(name)
    ensures Load(Some(NameLabel + name)) ==
            if name == [] then Err(OutOfRange) else Ok([Item(name, name, name[1..])])
  {
    var line := NameLabel + name;
    LabelWidths();
    SplitSingleLine(line);
    assert line[NameOffset..] == name;
    assert !EndsWithLineBreak(line) by {
      assert line[|line| - 1] == if name == [] then NameLabel[|NameLabel| - 1] else name[|name| - 1];
    }
    assert StartsWith(line, NameLabel);
    if name != [] {
      var x := Item(name, name, name[1..]);
      assert line[ContactOffset..] == name[1..];
      assert ParseLines([line][1..], true) == Ok([]);
      assert [x] + [] == [x];
    }
  }
}
