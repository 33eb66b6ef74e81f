# Item registry ("ItemRebirth") in Dafny

A model of the record store behind the console lost-and-found registry
`ItemRebirth_console.cpp`. The `ItemManager` keeps an ordered list of items:
each item has a name, a description and contact information. It can add an
item, delete the first item with a given name, search for the first item with
a name, and list all items. After every add and every successful delete it
rewrites the whole list to a text file. The file holds four lines per item:

    物品名称: <name>
    物品描述: <description>
    联系人信息: <contact>
    ---

On start-up it reads the file back. A line that starts with the name label
begins a record. The reader then cuts the name, description and contact out of
that line and the next two lines by fixed offsets: 6, 6 and 7 characters.
When a cut line is shorter than its offset, `substr` throws `out_of_range`;
the model reports this as the load error `OutOfRange`.

A read past the end of the file behaves as `getline` does. When the file ends
in a line break, the failed read empties the line buffer, so the next cut
throws. When the file ends without one, the stream is already at its end, the
read fails before touching the buffer, and the previous line is cut again.

Files:

- `items.dfy` (module `Items`): the `Item` value and `FirstIndex`, the
  first-match lookup that search and delete share. Also lemmas about appending
  and erasing.
- `lines.dfy` (module `Lines`): the file as text. `Render` is writing each line
  followed by `endl`. `SplitLines` is what repeated `getline` returns.
- `format.dfy` (module `Format`): the labels and offsets, `Serialize` (items to
  lines), `Encode` (items to file text), `ParseLines` (lines to items, or a load
  error), `Load` (file text to items) and the round-trip lemmas.
- `manager.dfy` (module `Manager`): the class `ItemManager`. It has the `items`
  field and a `disk` field holding the file's text (`None` while no file exists).
  Its members follow the source's member functions. The loops (`ReadRecords`,
  `SaveToFile`, `DeleteItem`, `SearchItem`) are proved equal to `ParseLines`,
  `Encode` and `FirstIndex`.
  Console messages are an `Outcome` value: `Added`, `Deleted`, `NotFound`,
  `Found(item)`, `Empty` or `Listing(items)`.

Characters are Unicode scalar values. The labels' Chinese characters are one
`wchar_t` each in the source, so the label widths 6, 6 and 7 are counted in the
same units as the source's `substr` offsets.

## Model

| member | source | states |
|---|---|---|
| Items.FirstIndex | ItemRebirth_console.cpp:110-120 | the least index whose item's name equals the query: a match there and none before it; None exactly when no item has the name |
| Items.RemoveAt | ItemRebirth_console.cpp:84 | erasing the entry at k leaves a store one shorter whose part before k is the old part before k and whose part from k on is the old part after k |
| Items.RemoveAtKeepsOthers | ItemRebirth_console.cpp:82-87 | erasing the entry at k keeps the items before k at their indices and moves the items after it down by one; the multiset loses exactly that item |
| Items.AddThenSearch | ItemRebirth_console.cpp:110-118 | after appending x, a search for x's name succeeds: it finds the earlier item of that name if there is one, otherwise the new item at the old length |
| Items.DeleteThenSearch | ItemRebirth_console.cpp:82-87 | after the first match is deleted, a search for the same name finds what was the second match (or nothing), so only the first duplicate goes |
| Lines.Render | ItemRebirth_console.cpp:57-60 | the text written line by line with endl ends in a line break exactly when at least one line was written, and is empty otherwise |
| Lines.LineEnd | ItemRebirth_console.cpp:36 | the first line of the text ends at the first '\n' or at the end of the text: no '\n' before that position, and a '\n' at it unless the text ends there |
| Lines.SplitLines | ItemRebirth_console.cpp:36 | the lines getline yields never contain a line break; RenderSplit states which lines they are |
| Lines.RenderSplit | ItemRebirth_console.cpp:36 | writing back the lines getline yields, each followed by a line break, restores any text exactly, with one line break added when its last line had none: the lines are the text's segments between line breaks |
| Lines.SplitRender | ItemRebirth_console.cpp:57-60 | reading back lines written with endl gives the same lines when no line contains a line break |
| Format.LabelWidths | ItemRebirth_console.cpp:38-42 | the name, description and contact labels are 6, 6 and 7 characters wide, equal to the substr offsets; no label holds a line break |
| Format.RecordLines | ItemRebirth_console.cpp:57-60 | one item is written as four lines ending in "---"; the first starts with the name label, and cutting the first three at offsets 6, 6 and 7 gives back the name, description and contact |
| Format.Serialize | ItemRebirth_console.cpp:56-61 | the whole store is written as exactly four lines per item |
| Format.Encode | ItemRebirth_console.cpp:56-61 | the saved text ends in a line break exactly when the store is not empty; when no field holds a line break, getline reads back exactly the serialised lines |
| Format.EncodeAppend | ItemRebirth_console.cpp:56-61 | saving one more item extends the file text by exactly its labelled name, description and contact lines and the separator, each ended by a line break |
| Format.SerializeRecordAt | ItemRebirth_console.cpp:56-61 | serialising writes exactly four lines per item in store order: item i occupies lines 4i to 4i+3 as its labelled name, description, contact and separator |
| Format.NextLine | ItemRebirth_console.cpp:39-44 | the line buffer after the read meant for line i: that line when it exists; past the end, empty when the text ends in '\n' and otherwise the previous line, unchanged |
| Format.NextLineHasNoLineBreak | ItemRebirth_console.cpp:39-44 | the line buffer after a read never holds a '\n' when the lines read and the previous buffer hold none |
| Format.ParseLines | ItemRebirth_console.cpp:36-45 | the scan yields at most one item per line and yields no item (and no error) when no line starts with the name label; its behaviour is stated by ParseStepAt, ParseSkipsUnlabelled, ParseRecord, ParseSerialized and SerializeRoundTrip |
| Format.ParseStepAt | ItemRebirth_console.cpp:36-44 | the unfolding of ParseLines at line i that ties ReadRecords' loop to it: an unlabelled line is passed over; a name line with the buffers left by the next two reads either throws or yields the item cut from them and resumes four lines on, or at the end |
| Format.ParseSkipsUnlabelled | ItemRebirth_console.cpp:36-37 | lines that do not start with the name label are skipped without effect on the result |
| Format.ParseRecord | ItemRebirth_console.cpp:37-44 | a recognised record consumes its label line and exactly the three lines after it, yields exactly the written item, and comes before the items of the rest |
| Format.ParseSerialized | ItemRebirth_console.cpp:36-45 | serialised items followed by any lines read back as those items in file order, followed by what the rest yields; an error in the rest is still an error |
| Format.SerializeRoundTrip | ItemRebirth_console.cpp:36-61 | parsing the serialised lines of any store gives back exactly that store |
| Format.ParsedFieldsHaveNoLineBreak | ItemRebirth_console.cpp:36-43 | every field of every item read from lines without line breaks is free of line breaks |
| Format.Load | ItemRebirth_console.cpp:31-35 | a missing file loads as the empty store, and no field of a loaded item holds a line break |
| Format.FileRoundTrip | ItemRebirth_console.cpp:31-64 | saving a store and loading the file yields the same items in the same order if and only if no field contains a line break |
| Format.StopAfterNameLineBreak | ItemRebirth_console.cpp:36-40 | a file holding only a name line and its line break fails to load: the read for the description empties the line and cutting it at 6 throws |
| Format.StopInsideNameLine | ItemRebirth_console.cpp:36-44 | a file holding only a name line without a line break re-cuts that line: an empty name throws, otherwise the item (name, name, name without its first character) is loaded |
| Manager.ItemManager.constructor | ItemRebirth_console.cpp:68-70 | a new manager's items are what the file holds; a missing file gives an empty store |
| Manager.ItemManager.LoadFromFile | ItemRebirth_console.cpp:31-49 | loading succeeds exactly when the file's text loads without error (a missing file included), and then appends the loaded items, in file order, to the store |
| Manager.ItemManager.Getline | ItemRebirth_console.cpp:39-44 | one read from line i leaves the buffer NextLine describes and moves to the next line, or stays at the end |
| Manager.ItemManager.ReadRecord | ItemRebirth_console.cpp:37-44 | one record read from a name line: the item cut at 6, 6 and 7 from the name line and the buffers NextLine gives for the next two reads, or OutOfRange when a buffer is shorter than its offset; on success the scan resumes four lines on, or at the end |
| Manager.ItemManager.ReadRecords | ItemRebirth_console.cpp:35-46 | the getline loop completes exactly when the scan of the lines succeeds, and then appends the scanned items, in file order, to the store |
| Manager.ItemManager.SaveToFile | ItemRebirth_console.cpp:52-64 | the loop leaves the file holding exactly the serialised store |
| Manager.ItemManager.AddItem | ItemRebirth_console.cpp:73-78 | appends exactly the new item after the unchanged earlier items, saves, and reports Added |
| Manager.ItemManager.DeleteItem | ItemRebirth_console.cpp:81-91 | on a present name, removes only the first match, keeps the rest in order, saves, and reports Deleted; on an absent name, leaves items and file unchanged and reports NotFound |
| Manager.ItemManager.DisplayItems | ItemRebirth_console.cpp:94-107 | reports Empty exactly when the store is empty, and otherwise lists all items in store order |
| Manager.ItemManager.SearchItem | ItemRebirth_console.cpp:110-121 | returns the item at the least index with the queried name; reports NotFound exactly when no item has it, an empty store included |
| Manager.WalletExample | ItemRebirth_console.cpp:73-107 | on a store with no file: adding ("Wallet", "Black leather", "555-1234") lists exactly that item; deleting "Wallet" then lists Empty |
| Manager.SearchEmptyExample | ItemRebirth_console.cpp:110-121 | searching for "Keys" in a store with no file reports NotFound |

## Left out

- The interactive `main` menu loop, `getValidChoice` (numeric input with a retry
  loop), `clearConsole` and the `_setmode` calls are console I/O only.
- Console text. The exact `wcout` messages and the layout `displayItems` prints
  become `Outcome` values.
- File handling. The fixed file name `items.txt`, opening and closing the
  streams, and the UTF-8 `codecvt` locale are not modelled. The file is its
  text, or `None` when it does not exist. Write failures are ignored in the
  source and are not modelled: `SaveToFile` always succeeds.
- Line endings are `'\n'`. Text-mode translation of `endl` to CR LF on Windows
  is not modelled.
- Manager.ItemManager.constructor: says nothing about `items` when the file
  does not load. In the C++ program, `substr` then throws `out_of_range` out of
  the constructor and the program ends.
- Manager.ItemManager.LoadFromFile: on `OutOfRange` it says nothing about the
  items appended before the throw, since in the C++ program the exception ends
  the program.
- Manager.ItemManager.ReadRecords: on `OutOfRange` it says nothing about the
  items appended before the throw, for the same reason.
- The reader does not check the labels on the description and contact lines.
  It cuts fixed offsets from whatever lines follow the name line. The model
  does the same.
