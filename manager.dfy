/**
 * The item manager: an ordered store of items, mirrored to the registry file
 * after every add and every successful delete.
 */
module Manager {
  import opened Items
  import opened Lines
  import opened Format

  /** What each store operation reports to the user. */
  datatype Outcome = Added | Deleted | NotFound | Found(item: Item) | Empty | Listing(shown: seq<Item>)

  class ItemManager {
    /** The items, in the order they were added (or read from the file). */
    var items: seq<Item>
    /** The registry file's text; None while no such file exists. */
    var disk: Option<string>

    /** The file holds exactly the serialised store. */
    predicate Persisted()
      reads this
    {
      disk == Some(Encode(items))
    }

    /**
     * Starts from whatever the file holds. When the reader cuts a line shorter
     * than its offset, substr throws out_of_range out of the constructor in the
     * C++ program, which then ends, so nothing is said about the items then.
     */
    constructor (file: Option<string>)
      ensures disk == file
      ensures Load(file).Ok? ==> items == Load(file).value
    {
      items := [];
      disk := file;
      new;
      var ok := LoadFromFile();
    }

    /** Reads the file, appending each record found to the store; no file adds nothing. */
    method LoadFromFile() returns (ok: bool)
      modifies this`items
      ensures ok <==> Load(disk).Ok?
      ensures ok ==> items == old(items) + Load(disk).value
    {
      if disk.None? {
        return true;
      }
      ok := ReadRecords(SplitLines(disk.value), !EndsWithLineBreak(disk.value));
    }

    /**
     * The getline loop over the file's lines: a name line and the two reads
     * after it make one item, the separator read is skipped, other lines are
     * passed over. keepsLine says whether a read past the end leaves the line
     * buffer as it was (the text does not end in a line break) or empties it.
     */
    method ReadRecords(lines: seq<string>, keepsLine: bool) returns (ok: bool)
      modifies this`items
      ensures ok <==> ParseLines(lines, keepsLine).Ok?
      ensures ok ==> items == old(items) + ParseLines(lines, keepsLine).value
    {
      ghost var start, loaded: seq<Item> := items, [];
      var i := 0;
      assert lines[i..] == lines;
      PrependAppend([], [], ParseLines(lines, keepsLine));
      assert items == start + [];
      while i < |lines|
        invariant 0 <= i <= |lines|
        invariant start == old(items)
        invariant items == start + loaded
        invariant ParseLines(lines, keepsLine) == Prepend(loaded, ParseLines(lines[i..], keepsLine))
      {
        var at := i;
        ParseStepAt(lines, at, keepsLine);
        var line := lines[i];
        i := i + 1;
        if StartsWith(line, NameLabel) {
          var r;
          r, i := ReadRecord(lines, at, keepsLine);
          if r.Err? {
            return false;
          }
          var x := r.value;
          items := items + [x];
          assert items == start + (loaded + [x]);
          ghost var rest := ParseLines(lines[i..], keepsLine);
          assert ParseLines(lines[at..], keepsLine) == Prepend([x], rest);
          PrependAppend(loaded, [x], rest);
          loaded := loaded + [x];
        }
      }
      PrependAppend(loaded, [], ParseLines([], keepsLine));
      assert loaded + [] == loaded;
      ok := true;
    }

    /**
     * The body of the getline loop once line `at` starts with the name label:
     * the name is cut from it at 6, the next read's buffer is cut at 6 for the
     * description, the following read's at 7 for the contact, and one more read
     * skips the separator. A cut past the end of its line throws.
     */
    static method ReadRecord(lines: seq<string>, at: nat, keepsLine: bool) returns (r: Result<Item>, next: nat)
      requires at < |lines| && StartsWith(lines[at], NameLabel)
      ensures r.Ok? ==> next == if at + 4 <= |lines| then at + 4 else |lines|
      ensures var description := NextLine(lines, at + 1, lines[at], keepsLine);
              var contact := NextLine(lines, at + 2, description, keepsLine);
              r == if |description| < DescriptionOffset || |contact| < ContactOffset then Err(OutOfRange)
                   else Ok(Item(lines[at][NameOffset..], description[DescriptionOffset..], contact[ContactOffset..]))
    {
      var line := lines[at];
      var name := line[NameOffset..];
      line, next := Getline(lines, at + 1, line, keepsLine);
      if |line| < DescriptionOffset {
        return Err(OutOfRange), next;
      }
      var description := line[DescriptionOffset..];
      line, next := Getline(lines, next, line, keepsLine);
      if |line| < ContactOffset {
        return Err(OutOfRange), next;
      }
      var contactInfo := line[ContactOffset..];
      r := Ok(Item(name, description, contactInfo));
      line, next := Getline(lines, next, line, keepsLine);  // the separator line
    }

    /**
     * One getline on the file's lines from line i: the line there and the
     * position after it, or, past the end, the buffer NextLine describes and
     * the same position.
     */
    static method Getline(lines: seq<string>, i: nat, buffer: string, keepsLine: bool) returns (line: string, next: nat)
      requires i <= |lines|
      ensures line == NextLine(lines, i, buffer, keepsLine)
      ensures next == if i < |lines| then i + 1 else i
    {
      if i < |lines| {
        line, next := lines[i], i + 1;
      } else if keepsLine {
        line, next := buffer, i;
      } else {
        line, next := "", i;
      }
    }

    /** Overwrites the file with the whole store, four lines per item. */
    method SaveToFile()
      modifies this`disk
      ensures Persisted()
    {
      var text := "";
      var i := 0;
      while i < |items|
        invariant 0 <= i <= |items|
        invariant text == Encode(items[..i])
      {
        var x := items[i];
        text := text + NameLabel + x.name + "\n";
        text := text + DescriptionLabel + x.description + "\n";
        text := text + ContactLabel + x.contactInfo + "\n";
        text := text + Separator + "\n";
        assert items[..i + 1] == items[..i] + [x];
        EncodeAppend(items[..i], x);
        i := i + 1;
      }
      assert items[..i] == items;
      disk := Some(text);
    }

    /** Appends a new item and saves. */
    method AddItem(name: string, description: string, contactInfo: string) returns (r: Outcome)
      modifies this
      ensures items == old(items) + [Item(name, description, contactInfo)]
      ensures Persisted()
      ensures r == Added
    {
      items := items + [Item(name, description, contactInfo)];
      SaveToFile();
      r := Added;
    }

    /**
     * Erases the first item with exactly this name and saves; when no item has
     * the name, changes nothing, saves nothing and reports it.
     */
    method DeleteItem(name: string) returns (r: Outcome)
      modifies this
      ensures FirstIndex(old(items), name).None? ==>
                r == NotFound && items == old(items) && disk == old(disk)
      ensures FirstIndex(old(items), name).Some? ==>
                r == Deleted && items == RemoveAt(old(items), FirstIndex(old(items), name).value) && Persisted()
    {
      var i := 0;
      while i < |items|
        invariant 0 <= i <= |items|
        invariant forall j :: 0 <= j < i ==> items[j].name != name
      {
        if items[i].name == name {
          items := items[..i] + items[i + 1..];
          SaveToFile();
          return Deleted;
        }
        i := i + 1;
      }
      r := NotFound;
    }

    /** Shows every item in store order, or reports that there is none. */
    function DisplayItems(): (r: Outcome)
      reads this
      ensures r == Empty <==> items == []
      ensures r != Empty ==> r == Listing(items)
    {
      if items == [] then Empty else Listing(items)
    }

    /** Finds the first item with exactly this name. */
    method SearchItem(name: string) returns (r: Outcome)
      ensures r == match FirstIndex(items, name)
                   case None => NotFound
                   case Some(k) => Found(items[k])
    {
      var i := 0;
      while i < |items|
        invariant 0 <= i <= |items|
        invariant forall j :: 0 <= j < i ==> items[j].name != name
      {
        if items[i].name == name {
          return Found(items[i]);
        }
        i := i + 1;
      }
      r := NotFound;
    }
  }

  /** Adding then deleting "Wallet" on a store with no file leaves it empty again. */
  method WalletExample() returns (added: Outcome, before: Outcome, deleted: Outcome, after: Outcome)
    ensures added == Added && deleted == Deleted && after == Empty
    ensures before == Listing([Item("Wallet", "Black leather", "555-1234")])
  {
    var m := new ItemManager(None);
    added := m.AddItem("Wallet", "Black leather", "555-1234");
    before := m.DisplayItems();
    deleted := m.DeleteItem("Wallet");
    after := m.DisplayItems();
  }

  /** Searching a store with no file reports not-found, not an error. */
  method SearchEmptyExample() returns (r: Outcome)
    ensures r == NotFound
  {
    var m := new ItemManager(None);
    r := m.SearchItem("Keys");
  }
}
