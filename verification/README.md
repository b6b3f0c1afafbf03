# Verification of the expat 2.1.0 parser core and of the message protocol

A Dafny model of the hardest code of the repository, with proofs about it: the vendored XML parser
(`expat-2.1.0/lib`) and the store-and-forward message protocol (`momosecpp/src`).

The XML parser is taken for UTF-8 (one byte per minimal character), with namespaces, with
`XML_CONTEXT_BYTES` of 1024, successful allocation and unbounded integers. What changes state step by step
in the source is a class or a loop here; each is proved against functions, about which the results are.

| files | part of the program |
|---|---|
| `Encodings`, `Errors`, `Utf8` | bytes, byte types, UTF-8, numeric character references |
| `Automaton`, `Stability`, `Scanners`, `Grammar` | the tokens of element content: one automaton, the scanners that follow it, what more input can change, and the productions on bytes that are accepted |
| `AttributeValues`, `ValueReader`, `TagAttributes`, `NormalizedValues`, `Tags` | attributes: entities, normalization, and the short cut for values that need none |
| `StartTags`, `Escapes`, `EntityValues` | what is written in a tag is what is read: attributes, characters and references, entities within entities |
| `Content`, `LineEnds`, `ChunkIndependence`, `Nesting`, `CdataSections`, `TagBuffers`, `Parser` | element content in any number of buffers, and the parser with its buffers |
| `WrittenText`, `Documents`, `TagErrors` | document trees that are printed, and what is reported for them; documents that are errors |
| `HashTable` | the symbol tables |
| `ContentModels`, `Scaffolds`, `PackedModels`, `ElementDeclarations` | element type declarations, from tokens to the block given to the handler |
| `Bindings`, `Namespaces`, `NamespacePrefixes`, `NamespaceRuns`, `NamespaceDocuments`, `AttributeNames`, `AttributeMeanings`, `Contexts` | namespaces: bindings that share buffers, what names mean by what is declared, duplicate attributes, contexts |
| `StringPools`, `Transcoding` | string pools, UTF-8 to UTF-16 and back |
| `MessageProtocol`, `MessagePushes`, `MessageLatencies`, `MessageNodes`, `MessageModels` | the message protocol: its state machine, what is pushed and when it comes, and the classes that follow it |

The main results:

- **Documents.** Every tree of elements, text, comments, processing instructions and CDATA sections, printed in any of
  the ways the grammar allows, in however many buffers, is reported as the calls that are defined on the tree alone,
  at its offsets (`Documents.DocumentIsReported`). What stops before its end is unfinished, and a wrong end tag
  (`Documents.MismatchIsError`) or a repeated name (`TagErrors.RepeatedIsError`) is an error at its place.
- **Tokens.** The scanners accept a token exactly where its production stands, for productions on the bytes
  (`Grammar.TokenExactlyIf`).
- **Content.** However a document is cut into buffers, the parser reports the same end or error at the same place, and
  the same events at the same offsets once adjacent character data is merged (`ChunkIndependence.ChunksDoNotMatter`);
  only of the data before a `]]>` that is an error more is reported under some cuttings, and it is proved exactly when
  (`ChunkIndependence.CutsMatter`). The class with the moving buffer, the tag stack and the tag buffers does what the
  specification says for every sequence of calls: each handler is called with the right byte index
  (`Parsers.Parser.FeedAll`), and raw names survive the moves (`TagBuffers.StoreRawNames`). The starts and ends that
  are reported nest (`Nesting.ChunksNest`). CDATA sections are exact to the byte under any cutting
  (`CdataSections.ChunkedSectionIsReported`).
- **Attributes.** A value is the characters that are written in it, as themselves, by reference or in the text of
  entities (`EntityValues.NormalOfParts`), so every text survives when it is escaped (`Escapes.EscapeIsValue`, and
  `WrittenText.EscapeIsText` for content). Expansion ends for every entity table, is the value of section 3.3.3 of XML
  1.0, finds every cycle, and leaves all entities as open as they were; it succeeds exactly if every chain of
  references may be expanded (`ValueReaders.SucceedsExactlyIf`). `getAtts` finds exactly the attributes the scanner
  accepted, and a value it calls normalized is left unchanged by normalization.
- **Namespaces.** The end of an element is reported with the name of its start, although open elements share and
  overwrite the URI buffers of bindings, which move; prefixes have their innermost declaration; a balanced stretch of
  content restores them; a binding is on one list only. A document in any number of buffers has the same expanded
  names, and each end has the name of its start (`NamespaceDocuments.DocumentIsNamed`). A name is an error exactly if
  no declaration in scope has its prefix (`NamespacePrefixes.UnboundExactlyIf`), for whole documents too
  (`NamespaceDocuments.NamesExactlyIf`). Duplicate expanded attribute names are always found, and it is known exactly
  what else is (`AttributeNames.ReportedIsTaken`).
- **Tables.** Probing with an odd step comes to every slot; lookup is a finite map for any hash.
- **Declarations.** The tokens accepted are exactly the printings of content models, and the block that is delivered
  is the printed tree, each cell written once and each character accounted for.
- **Pools, contexts, transcoding.** Finished strings never move; the context of a parser is taken over exactly; text
  survives the way to UTF-16 and back through buffers of any size.
- **Protocol.** What is pushed is known by the types of the nodes: a collaborator pushes everything, newest first,
  those of collaborators before the others if it has friendships; an adversary the messages of adversaries
  (`MessagePushes.PushedIs`). The invariant holds in every state of every run; nothing is forgotten; every message has
  come along pushes of the run; a node that has been brought a message sends it on in a later step, so it makes one
  hop a step at most; only collaborators forward a collaborator's message.

## Model

| member | source | states |
|---|---|---|
| Utf8.InvalidIsNotUtf8 | expat-2.1.0/lib/xmltok.c:91-122 | The invalidity tests on a sequence with the announced length accept exactly the UTF-8 of section 4 of RFC 3629, without U+FFFE and U+FFFF |
| Utf8.EncodeDecodes | expat-2.1.0/lib/xmltok.c:1192-1227 | Every code point but surrogates is written as one well-formed sequence whose payload bits are the number |
| Utf8.DecodeEncodes | expat-2.1.0/lib/xmltok.c:1192-1227 | Every well-formed sequence is the encoding of the number it stands for |
| Utf8.CheckIsXmlChar | expat-2.1.0/lib/xmltok.c:1173-1190 | The check of a character number accepts exactly the characters of section 2.2 of XML 1.0 |
| Utf8.ReadCharRefNumber | expat-2.1.0/lib/xmltok_impl.c:1523-1565 | Accumulating digits with early exit gives the value of the numeral if it is a Char of XML 1.0, else -1 |
| Automaton.ScanStep | expat-2.1.0/lib/xmltok_impl.c:684-780 | A token is scanned character by character; what may follow is decided by the state only |
| Stability.ContentTokStable | expat-2.1.0/lib/xmltok_impl.c:784-879 | A complete token that is not a run of data is the token of every longer input |
| Stability.DataTokGrows | expat-2.1.0/lib/xmltok_impl.c:784-879 | With more input a run of data goes on as if a token had started where it stopped, or fails at the same place |
| Stability.CdataTokStable | expat-2.1.0/lib/xmltok_impl.c:304-378 | The same for the tokens of CDATA sections |
| Stability.TokenByItself | expat-2.1.0/lib/xmltok_impl.c:784-879 | A complete token is scanned the same way when nothing follows it, so a tag can be read again |
| Stability.ContentTokDecided | expat-2.1.0/lib/xmltok_impl.c:784-879 | Three bytes behind a complete token are enough to tell where it ends, runs of data included |
| Scanners.ScanComment | expat-2.1.0/lib/xmltok_impl.c:92-126 | The scanner of comments ends where the automaton does, with its token |
| Scanners.ScanPi | expat-2.1.0/lib/xmltok_impl.c:222-282 | The same for processing instructions, with the reserved target |
| Scanners.ScanCdataSection | expat-2.1.0/lib/xmltok_impl.c:284-302 | The same for the keyword of a CDATA section, compared only when all of it is there; its bytes are in `Grammar.CdataIsToken` |
| Scanners.ScanEndTag | expat-2.1.0/lib/xmltok_impl.c:382-428 | The same for end tags |
| Scanners.ScanHexCharRef | expat-2.1.0/lib/xmltok_impl.c:431-460 | The same for hexadecimal character references |
| Scanners.ScanCharRef | expat-2.1.0/lib/xmltok_impl.c:463-492 | The same for decimal ones |
| Scanners.ScanRef | expat-2.1.0/lib/xmltok_impl.c:495-522 | The same for references |
| Scanners.ScanAtts | expat-2.1.0/lib/xmltok_impl.c:525-680 | The same for the attributes of a tag, with references in values |
| Scanners.ScanLt | expat-2.1.0/lib/xmltok_impl.c:684-780 | The same for everything that begins with `<` |
| Scanners.ReadContentTok | expat-2.1.0/lib/xmltok_impl.c:784-879 | The next token of content, `]]>` and trailing CR and `]` included; what the tokens are is `Grammar.TokenExactlyIf` |
| Scanners.ReadCdataSectionTok | expat-2.1.0/lib/xmltok_impl.c:304-378 | The next token of a CDATA section |
| Grammar.TokenExactlyIf | expat-2.1.0/lib/xmltok_impl.c:784-879 | For UTF-8, what begins with a comment, an opening of a CDATA section (its nine bytes), a processing instruction, a start, empty-element or end tag, or a reference is scanned as that token up to its end, if and only if it stands there by its production on the bytes |
| Grammar.TokenHasForm | expat-2.1.0/lib/xmltok_impl.c:684-780 | A token that is scanned is an instance of its production: a tag has names, white space, `=` and quoted values of characters and references |
| Grammar.CdataIsToken | expat-2.1.0/lib/xmltok_impl.c:284-302 | `<![CDATA[` opens a section, whatever follows it |
| Grammar.CommentIsToken | expat-2.1.0/lib/xmltok_impl.c:92-126 | `<!--`, characters without `--`, and `-->` are a comment |
| Grammar.Utf8IsUtf8 | expat-2.1.0/lib/xmltok.c:387-425 | The tables for UTF-8 give each byte the type its number says, and call invalid what is no Char of XML 1.0 in UTF-8, without U+FFFE and U+FFFF |
| AttributeValues.SqueezeIsTokenized | expat-2.1.0/lib/xmlparse.c:4921-4935 | Leaving out spaces on the fly and one at the end is the normalization of section 3.3.3 for tokenized attributes: no space at either end, single ones between words |
| AttributeValues.Utf8IsStandard | expat-2.1.0/lib/xmltok.c:387-425 | The tables for UTF-8 have what the parser relies on |
| ValueReaders.ReadAttributeValueTok | expat-2.1.0/lib/xmltok_impl.c:1202-1258 | The next token of an attribute value |
| ValueReaders.ValueReader.AppendAttributeValue | expat-2.1.0/lib/xmlparse.c:4937-5085 | For every entity table, cyclic ones included, expansion ends with the value of section 3.3.3 of XML 1.0 or its first error; all `open` flags are as before; the place of an error is recorded for the text of the attribute and not for that of entities |
| ValueReaders.ValueReader.StoreAttributeValue | expat-2.1.0/lib/xmlparse.c:4921-4935 | The stored value, trimmed for tokenized attributes, or the error and its place; what the value is by its characters is `EntityValues.NormalOfParts` |
| ValueReaders.SuccessHasNoCycle | expat-2.1.0/lib/xmlparse.c:5012-5070 | A value that is expanded successfully starts no chain of references that meets an entity twice or one that was open: re-entering an open entity is always an error |
| ValueReaders.SucceedsExactlyIf | expat-2.1.0/lib/xmlparse.c:4937-5085 | Expansion succeeds if and only if, along every chain of references, every item is well-formed and every reference may be expanded where the entities of the chain are open |
| TagAttributes.GetAtts | expat-2.1.0/lib/xmltok_impl.c:1430-1521 | On every tag the scanner accepts: the number of attributes the automaton went through, and name, value span and mark of the first `attsMax` |
| NormalizedValues.TagSpansAreGood | expat-2.1.0/lib/xmltok_impl.c:1430-1521 | The spans are whole names and whole quoted values, and those marked as normalized contain only ordinary characters and single inner spaces |
| NormalizedValues.NormalizedIsUnchanged | expat-2.1.0/lib/xmlparse.c:2784-2815 | A value marked as normalized is its own normalization, for CDATA and for tokenized attributes |
| NormalizedValues.NameLength | expat-2.1.0/lib/xmltok_impl.c:1698-1723 | The loop over name characters finds the end of the name |
| StartTags.SpansOfTag | expat-2.1.0/lib/xmltok_impl.c:1430-1521 | Of every printed tag the attributes that are found are those that are written, each with the places of its name and value |
| Escapes.NormalOfWritten | expat-2.1.0/lib/xmlparse.c:4937-5085 | A value is the characters that are written in it, as themselves, by the name of a predefined entity or by number in decimal or hexadecimal; white space that is not written by reference is a space, and CR LF in a document a single one |
| Escapes.EscapeIsValue | expat-2.1.0/lib/xmlparse.c:4937-5085 | Every text comes back from an attribute value if markup is escaped as the literal bytes of `&amp;`, `&lt;`, `&gt;`, `&quot;` and `&apos;` and white space by number, for all entities, whichever are open |
| Escapes.NumericIs | expat-2.1.0/lib/xmltok_impl.c:1523-1565 | The decimal and the hexadecimal numeral of a number, with letters of either case, are the character with the number if there is one, else none |
| EntityValues.NormalOfParts | expat-2.1.0/lib/xmlparse.c:5012-5070 | References within references: if every entity is declared, parsed, internal and not within itself, the value is the characters of all texts in order; a line end in the text of an entity is not one in the document |
| EntityValues.ReferenceErrors | expat-2.1.0/lib/xmlparse.c:5012-5070 | The first reference that may not be expanded is the error: undeclared, declared in a parameter entity, recursive, to an unparsed entity, to an external one |
| EntityValues.NumberErrors | expat-2.1.0/lib/xmlparse.c:4960-4985 | A reference to a number is the character with it exactly if it is one of section 2.2 of XML 1.0, else the error |
| Tags.ReadValue | expat-2.1.0/lib/xmlparse.c:2784-2815 | Short cut or expansion, the value is the normalized one, or its error with its offset in the tag |
| Tags.ReadAttributes | expat-2.1.0/lib/xmlparse.c:2740-2815 | Names and values in order, or the first error and its offset in the tag; a name given twice is one, found before the error of its value |
| Content.StepAdvances | expat-2.1.0/lib/xmlparse.c:2230-2685 | Every token takes at least a byte, and at the end of the input nothing waits |
| Content.Parse | expat-2.1.0/lib/xmlparse.c:2230-2685 | What a run leaves over is the end of its input, and a final run leaves over nothing |
| LineEnds.NormalizeLines | expat-2.1.0/lib/xmlparse.c:5254-5274 | In place, CR LF and CR become LF |
| LineEnds.NormalizedIsSame | expat-2.1.0/lib/xmlparse.c:5254-5274 | No CR is left, and text is unchanged exactly if it has none |
| ChunkIndependence.StepStable | expat-2.1.0/lib/xmlparse.c:2230-2685 | A step that is not over a run of data is the same with more input, final or not |
| ChunkIndependence.RunCut | expat-2.1.0/lib/xmlparse.c:2230-2685 | Parsing a first part, then what it left over with the rest, is parsing it all; before a `]]>` that is an error, data may be reported up to any byte of it |
| ChunkIndependence.ChunksDoNotMatter | expat-2.1.0/lib/xmlparse.c:2230-2685 | For every document and every cutting into buffers: the same end or error at the same place, and the same events at the same offsets once adjacent character data is merged, but for data that a failing token begins with, of which some may be reported |
| ChunkIndependence.CutsMatter | expat-2.1.0/lib/xmltok_impl.c:835-877 | Every cutting gives exactly the events of one piece if and only if the run does not fail at a `]]>` behind character data of the same token |
| ChunkIndependence.HeldBackIsData | expat-2.1.0/lib/xmltok_impl.c:835-877 | What one piece holds back is character data only |
| ChunkIndependence.TextBeforeBrackets | expat-2.1.0/lib/xmltok_impl.c:835-877 | `x]]>` in one piece gives the error alone, cut behind `x` the text and the same error |
| WrittenText.TextReads | expat-2.1.0/lib/xmlparse.c:2230-2685 | Text is reported as the characters that are written in it, at their offsets, with normalized line ends |
| WrittenText.EscapeIsText | expat-2.1.0/lib/xmlparse.c:2307-2322 | Every text survives in content if it is escaped: exactly its bytes are reported |
| Documents.TagStep | expat-2.1.0/lib/xmlparse.c:2381-2493 | A tag calls the start handler with its name and, for each attribute in order, the name and the characters that are written in the value, at the offset of the `<`; an empty one also the end handler behind it |
| Documents.TreeIsReported | expat-2.1.0/lib/xmlparse.c:2230-2685 | A printed tree is read to the end of its root, and its events are those of the tree with their offsets |
| Documents.DocumentIsReported | expat-2.1.0/lib/xmlparse.c:2230-2685 | The same in any number of buffers: elements with their attributes, text, comments, processing instructions and CDATA sections are reported with their content, in order, at their offsets |
| Documents.MismatchIsError | expat-2.1.0/lib/xmlparse.c:2494-2510 | An end tag with another name than that of the innermost element is an error at its name, behind all events before it |
| Documents.BeginningIsUnfinished | expat-2.1.0/lib/xmlparse.c:2280-2306 | What is cut off before the end of the root is an error for want of input |
| TagErrors.RepeatedIsError | expat-2.1.0/lib/xmlparse.c:2753-2783 | An attribute name that is given twice is an error at the second one |
| TagErrors.FitsExactlyIf | expat-2.1.0/lib/xmlparse.c:2753-2783 | That is the case exactly if the names are not distinct |
| Nesting.ChunksNest | expat-2.1.0/lib/xmlparse.c:2381-2550 | Under every cutting each end that is reported is that of the innermost open element, and all are closed when the root is |
| CdataSections.SectionCut | expat-2.1.0/lib/xmltok_impl.c:304-378 | A section cut anywhere, also in a delimiter, a line end or a character, is read on where it waited |
| CdataSections.CutsDoNotMatter | expat-2.1.0/lib/xmltok_impl.c:304-378 | Under any cutting the characters of a section, its end, its error and their places are those of the input in one piece |
| CdataSections.SectionIsReported | expat-2.1.0/lib/xmlparse.c:3192-3301 | The parser reports exactly the bytes up to the first `]]>`, each with its offset, or the error at its place, and goes on with content behind it |
| CdataSections.ChunkedSectionIsReported | expat-2.1.0/lib/xmlparse.c:3166-3301 | However the input is cut into buffers, the parser reports exactly the section of the input in one piece: data with normalized line ends, end or error and their offsets, nothing left out before an error |
| Parsers.Parser.HandleTag | expat-2.1.0/lib/xmlparse.c:2381-2493 | A start tag or empty-element tag: name, attributes, handler calls and their offsets, or the error and its place; what the calls are for a written tag is `Documents.TagStep` |
| Parsers.Parser.HandleEndTag | expat-2.1.0/lib/xmlparse.c:2494-2548 | An end tag must have the raw name of the innermost open tag, wherever that is kept; the last one closes the root |
| Parsers.Parser.HandleToken | expat-2.1.0/lib/xmlparse.c:2257-2674 | One token of content does what the specification says, each handler is called at the offset it says, and `eventPtr` is left where it says |
| Parsers.Parser.ReportPi | expat-2.1.0/lib/xmlparse.c:5277-5303 | The target, and what follows the white space behind it, with normalized line ends |
| Parsers.Parser.ReportComment | expat-2.1.0/lib/xmlparse.c:5306-5330 | What is between `<!--` and `-->`, with normalized line ends |
| Parsers.Parser.DoContent | expat-2.1.0/lib/xmlparse.c:2230-2685 | The loop over tokens is the run of the specification: handler calls with their offsets, end, error and its place, unused input |
| Parsers.Parser.DoCdataSection | expat-2.1.0/lib/xmlparse.c:3192-3301 | The same for a section, with the place where content goes on |
| TagBuffers.OpenTag | expat-2.1.0/lib/xmlparse.c:2401-2437 | The name is converted into the buffer of the tag, which is reallocated with twice its size until it fits; other tags are untouched |
| TagBuffers.StoreRawName | expat-2.1.0/lib/xmlparse.c:2059-2092 | The raw name is copied behind the name, in a larger buffer if need be; raw name, `name.str` and `name.localPart` say what they said although the buffer has moved |
| TagBuffers.StoreRawNames | expat-2.1.0/lib/xmlparse.c:2054-2095 | Stopping at the first tag whose raw name is in its buffer is right: afterwards no tag points to the parse buffer, and all names say the same |
| Parsers.Parser.StoreRawNamesOfTags | expat-2.1.0/lib/xmlparse.c:2054-2095 | The same for the tags of the parser, whatever the parse buffer holds from then on |
| Parsers.Parser.RunContentProcessor | expat-2.1.0/lib/xmlparse.c:2099-2112 | Content, then raw names are stored unless there is an error |
| Parsers.Parser.RunCdataSectionProcessor | expat-2.1.0/lib/xmlparse.c:3166-3189 | A section, then content behind it |
| Parsers.Parser.MoveDown | expat-2.1.0/lib/xmlparse.c:1701-1714 | The kept bytes are moved to the front, and the window is still the end of the input |
| Parsers.Parser.Reallocate | expat-2.1.0/lib/xmlparse.c:1715-1752 | The same for a new buffer, with room for all that is needed |
| Parsers.Parser.GetBuffer | expat-2.1.0/lib/xmlparse.c:1678-1757 | Room for `len` bytes; unused input and the count of used bytes stay, and `min(1024, used bytes still there)` bytes of context are kept when the buffer moves |
| Parsers.Parser.ParseBuffer | expat-2.1.0/lib/xmlparse.c:1622-1676 | The new bytes are input; handler calls, with the byte index during each, result, unused input and the place of an error are those of the specification; while content goes on the byte index is the offset of the unused input; after the end nothing happens |
| Parsers.Parser.Feed | expat-2.1.0/lib/xmlparse.c:1499-1620 | The same for input that is copied to the buffer |
| Parsers.Parser.FeedAll | expat-2.1.0/lib/xmlparse.c:1499-1620 | For every sequence of pieces the handler calls, with the byte index during each, and the outcome are those of a report of the document as `ChunksDoNotMatter` has it; starts and ends nest |
| Parsers.LeftWaits | expat-2.1.0/lib/xmlparse.c:2230-2685 | Input that is left over is not yet a token |
| HashTables.ProbeStep | expat-2.1.0/lib/xmlparse.c:117-128 | The probe step is odd and smaller than the table |
| HashTables.OddReaches | expat-2.1.0/lib/xmlparse.c:117-128 | An odd number has all multiples modulo a power of two |
| HashTables.ProbeReaches | expat-2.1.0/lib/xmlparse.c:5990-6000 | Probing comes to every slot in fewer steps than there are slots, for every hash |
| HashTables.SearchFinds | expat-2.1.0/lib/xmlparse.c:5990-6000 | In a table that is not full the search ends, at the entry of the name exactly if there is one |
| HashTables.EntryAdded | expat-2.1.0/lib/xmlparse.c:6031-6045 | A new entry where the search ended makes the table that of the larger map |
| HashTables.HashTable.Probe | expat-2.1.0/lib/xmlparse.c:5990-6000 | The loop ends at the slot the search ends at |
| HashTables.HashTable.Grow | expat-2.1.0/lib/xmlparse.c:6004-6030 | Twice the slots, every entry at home again |
| HashTables.HashTable.Lookup | expat-2.1.0/lib/xmlparse.c:5969-6046 | For any hash the table is a finite map: the entry of the name, NULL, or a new entry; `used` counts the entries and is at most half of the size |
| HashTables.HashTable.Clear | expat-2.1.0/lib/xmlparse.c:6048-6057 | The empty map in the same slots |
| ContentModels.AcceptedIsPrinted | expat-2.1.0/lib/xmlrole.c:1002-1212 | A token sequence declares a name and a content model exactly if it is, white space aside, the printing of them, and the model is one of sections 3.2.1 and 3.2.2 of XML 1.0: groups that mix the connectors of sequences and choices are rejected |
| ContentModels.DeclarationIsRead | expat-2.1.0/lib/xmlrole.c:1002-1212 | Every printing is read back |
| ContentModels.StepConsumes | expat-2.1.0/lib/xmlparse.c:4422-4476 | An accepted token is the next one of what has been read |
| Scaffolds.LeafJoins | expat-2.1.0/lib/xmlparse.c:4602-4637 | A name becomes the last child of the innermost group in the table of parts |
| Scaffolds.GroupOpens | expat-2.1.0/lib/xmlparse.c:4422-4453 | A group is opened within the innermost one |
| Scaffolds.GroupCloses | expat-2.1.0/lib/xmlparse.c:4639-4667 | A closed group is the last child of the one around it, or the whole model |
| PackedModels.DenotesOne | expat-2.1.0/lib/xmlparse.c:6305-6378 | A block of cells and characters is one tree only |
| PackedModels.BuiltDenotes | expat-2.1.0/lib/xmlparse.c:6305-6378 | What is built denotes the tree, children in a contiguous slice |
| PackedModels.BuildNode | expat-2.1.0/lib/xmlparse.c:6321-6357 | Ends; the cell and those for its descendants, and their characters, are filled exactly and nothing else is; each cell is written once |
| PackedModels.BuildModel | expat-2.1.0/lib/xmlparse.c:6359-6378 | An allocation of exactly the parts and characters, each cell written once, that denotes the tree |
| ElementDeclarations.PrologState.TokenRole | expat-2.1.0/lib/xmlrole.c:984-1212 | Role, next handler and level of each token in each state |
| ElementDeclarations.Declaration.NextScaffoldPart | expat-2.1.0/lib/xmlparse.c:6273-6303 | A new part, linked as the last child of the innermost group; the table doubles when it is full |
| ElementDeclarations.Declaration.HandleToken | expat-2.1.0/lib/xmlparse.c:4422-4476 | Machine, group connectors and parts together do what the abstract machine does, with its error |
| ElementDeclarations.Declaration.DoRole | expat-2.1.0/lib/xmlparse.c:4559-4667 | The cases for the roles of element declarations |
| ElementDeclarations.Declaration.Declare | expat-2.1.0/lib/xmlparse.c:4614-4667 | A declaration that is accepted is the printing of its name and of the model in the delivered block |
| Bindings.Declared | expat-2.1.0/lib/xmlparse.c:3142-3155 | A new declaration comes into force and remembers the one it hides; an empty default namespace undeclares it |
| Bindings.Undone | expat-2.1.0/lib/xmlparse.c:2536-2544 | The end of the innermost declaration brings back the one it hid |
| Namespaces.ExpandedIs | expat-2.1.0/lib/xmlparse.c:2993-3043 | A reported name is URI, separator, local part and perhaps the prefix |
| Namespaces.InForceUri | expat-2.1.0/lib/xmlparse.c:2993-3003 | What a prefix points to is its innermost declaration in scope, or nothing if the default namespace is undeclared |
| NamespacePrefixes.LawfulHasNoError | expat-2.1.0/lib/xmlparse.c:3080-3115 | A declaration is accepted exactly if it meets the constraints of section 3 of Namespaces in XML 1.0 on `xml`, `xmlns`, their namespaces and undeclaring |
| NamespacePrefixes.UnboundExactlyIf | expat-2.1.0/lib/xmlparse.c:2993-2997 | Where declarations are lawful, a name is an unbound prefix if and only if it has a colon and no declaration of its tag or around it has the text before it as prefix; there is no other error |
| NamespacePrefixes.UnprefixedExactlyIf | expat-2.1.0/lib/xmlparse.c:2998-3003 | A name without a colon is reported as itself exactly if the last default declaration of the tag, or the innermost one around it if the tag has none, is absent or empty |
| NamespacePrefixes.PrefixedIs | expat-2.1.0/lib/xmlparse.c:3004-3043 | A prefixed name is reported as the URI of the declaration that counts, the separator, what follows the colon and, with triplets, the separator and the prefix |
| NamespacePrefixes.DefaultedIs | expat-2.1.0/lib/xmlparse.c:2998-3043 | A name without a prefix as the URI of the default declaration that counts, the separator and itself |
| Namespaces.Namespaces.CheckDeclaration | expat-2.1.0/lib/xmlparse.c:3080-3115 | The reserved prefixes and namespaces of section 3 of Namespaces in XML 1.0 |
| Namespaces.Namespaces.AddBinding | expat-2.1.0/lib/xmlparse.c:3049-3161 | A declaration comes first among those in scope, or there is an error and nothing changes; bindings are on one list only |
| Namespaces.Namespaces.MoveBuffer | expat-2.1.0/lib/xmlparse.c:3017-3031 | A buffer that is too small is replaced, and the names of open tags in it are repaired |
| Namespaces.Namespaces.ExpandName | expat-2.1.0/lib/xmlparse.c:2993-3043 | The expanded name, in the shared buffer, with room to build it again at the end tag; which it is by what is declared is `NamespacePrefixes.UnboundExactlyIf`, `UnprefixedExactlyIf` and `PrefixedIs` |
| Namespaces.Namespaces.Refill | expat-2.1.0/lib/xmlparse.c:2512-2533 | At the end tag the name is built again without a space check, and is the one of the start tag |
| Namespaces.Namespaces.StartElement | expat-2.1.0/lib/xmlparse.c:2381-2448 | The name of section 6.2 of Namespaces in XML 1.0, or the first error, by what is declared as in `NamespacePrefixes`; its declarations are in scope |
| Namespaces.Namespaces.EndElement | expat-2.1.0/lib/xmlparse.c:2494-2548 | The name is that of the start; the declarations in scope are those from before the element |
| Namespaces.Namespaces.EmptyElement | expat-2.1.0/lib/xmlparse.c:2450-2493 | An empty element leaves everything in scope as it was |
| Namespaces.Namespaces.FreeBindings | expat-2.1.0/lib/xmlparse.c:2536-2544 | The bindings of an element go to the free list, and what they hid is in force again |
| Namespaces.Namespaces.InheritBinding | expat-2.1.0/lib/xmlparse.c:3049-3161 | A binding outside all elements, kept with the inherited ones |
| NamespaceRuns.ReadElement | expat-2.1.0/lib/xmlparse.c:2381-2548 | For every tree of elements: start and end events with equal names, or the first error; with lawful declarations an error exactly if a prefix is not declared; all prefixes are restored |
| NamespaceRuns.MeaningExactlyIf | expat-2.1.0/lib/xmlparse.c:2993-2997 | With lawful declarations an element tree is reported if and only if every prefix of a name is declared by the element or around it; otherwise the error is an unbound prefix |
| NamespaceDocuments.ReportNames | expat-2.1.0/lib/xmlparse.c:2381-2548 | For every sequence of tags that nest: the expanded names, or the first error, with lawful declarations exactly if a prefix is not declared; when all are closed the declarations in scope are those before |
| NamespaceDocuments.NamesNest | expat-2.1.0/lib/xmlparse.c:2494-2534 | Where the tags nest the expanded names do: each end has the name of the start it closes |
| NamespaceDocuments.DocumentIsNamed | expat-2.1.0/lib/xmlparse.c:2381-2548 | However a document is cut, its elements have the same expanded names or the same first error, and the names nest |
| NamespaceDocuments.NamesExactlyIf | expat-2.1.0/lib/xmlparse.c:2993-2997 | The same for every sequence of tags, with the prefixes declared by the elements that are open |
| NamespaceDocuments.DeclarationIsThere | expat-2.1.0/lib/xmlparse.c:5445-5457 | The declarations of a tag are its attributes `xmlns`, and `xmlns:` with a prefix, and no others |
| AttributeNames.DuplicatesAreFound | expat-2.1.0/lib/xmlparse.c:2876-2990 | Two attributes with the same expanded name are always an error |
| AttributeNames.ReportedIsTaken | expat-2.1.0/lib/xmlparse.c:2905-2982 | A duplicate is reported exactly if, before any unbound prefix, an expanded name equals one before it, or has the hash of one and is what that begins with as it is stored |
| AttributeNames.OtherNameIsFound | expat-2.1.0/lib/xmlparse.c:2934-2953 | A salt of `CHAR_HASH` and two different names of which the second is reported as a duplicate |
| AttributeNames.NothingElseIsFound | expat-2.1.0/lib/xmlparse.c:2934-2953 | So without hash collisions nothing but duplicates is reported |
| AttributeMeanings.KindIs | expat-2.1.0/lib/xmlparse.c:5445-5478 | By its characters: a name is `xmlns` or `xmlns:` with a prefix, and a declaration; or has a prefix before its first colon and a local part behind it; or neither |
| AttributeMeanings.ReportedIs | expat-2.1.0/lib/xmlparse.c:2905-2990 | An attribute with a bound prefix is reported as URI, local part and perhaps the prefix; one without is in no namespace |
| AttributeMeanings.NoErrorExactlyIf | expat-2.1.0/lib/xmlparse.c:2905-2982 | There is no error exactly if all prefixes are bound and no expanded name is taken |
| AttributeNames.AttributeStore.Prepare | expat-2.1.0/lib/xmlparse.c:2876-2904 | A table with more than twice the slots that are needed, and a version no slot carries, also after growth and wrap-around |
| AttributeNames.AttributeStore.GrowPower | expat-2.1.0/lib/xmlparse.c:2884-2895 | The power for the number of prefixed names |
| AttributeNames.AttributeStore.Insert | expat-2.1.0/lib/xmlparse.c:2934-2976 | Probing ends; a clash is reported exactly if a known entry matches, otherwise the name is in the table |
| AttributeNames.AttributeStore.Mark | expat-2.1.0/lib/xmlparse.c:2753-2836 | Marks find exactly the names that are given twice |
| AttributeNames.AttributeStore.Expand | expat-2.1.0/lib/xmlparse.c:2905-2982 | The first error of the prefixed names in order, or all expanded names |
| AttributeNames.AttributeStore.StoreNames | expat-2.1.0/lib/xmlparse.c:2753-2990 | Names or the error, for every tag in any run of tags; after a success all marks are clear |
| StringPools.StringPool.Grow | expat-2.1.0/lib/xmlparse.c:6209-6271 | Room for more; the unfinished string is kept, finished ones stay where they are, one block is new or none, and only a block without finished strings is replaced |
| StringPools.StringPool.AppendChar | expat-2.1.0/lib/xmlparse.c:453-457 | One more character |
| StringPools.StringPool.Finish | expat-2.1.0/lib/xmlparse.c:452 | The string at its address is finished |
| StringPools.StringPool.Discard | expat-2.1.0/lib/xmlparse.c:451 | The string that is being built is forgotten |
| StringPools.StringPool.Append | expat-2.1.0/lib/xmlparse.c:6144-6158 | Converted text is appended, byte for byte, in as many pieces as fit |
| StringPools.StringPool.AppendString | expat-2.1.0/lib/xmlparse.c:6186-6195 | A string is appended |
| StringPools.StringPool.Clear | expat-2.1.0/lib/xmlparse.c:6107-6125 | Every block is free, and none is lost |
| StringPools.StringPool.PerformAll | expat-2.1.0/lib/xmlparse.c:447-457 | Over any sequence of operations: the strings are those they should be, finished ones keep address and text until a clear, and the number of blocks never falls |
| Transcoding.WellFormedIsText | expat-2.1.0/lib/xmltok.c:91-122 | Bytes that are well-formed, character by character, are the UTF-8 of a text |
| Transcoding.ToUtf16 | expat-2.1.0/lib/xmltok.c:340-380 | As many characters as there is room for are converted, and no part of one |
| Transcoding.ToUtf8 | expat-2.1.0/lib/xmltok.c:538-599 | The same in the other direction; a pair of surrogates is one character |
| Transcoding.RoundTrip | expat-2.1.0/lib/xmltok.c:340-380 | To UTF-16 and back is the identity on every text, for every sequence of buffer sizes with room for one character |
| Transcoding.UnitsAre | expat-2.1.0/lib/xmltok.c:355-372 | A character above U+FFFF is a high and a low surrogate, with the ten higher and the ten lower bits |
| Transcoding.CopyEndsCharacter | expat-2.1.0/lib/xmltok.c:321-338 | A copy from UTF-8 to UTF-8 ends between characters exactly if there is no room, room for everything, or the last byte that there is room for is ASCII |
| Transcoding.PartIsCopied | expat-2.1.0/lib/xmltok.c:328-333 | Two inputs of which part of a character is copied, one where the character would have fitted |
| Contexts.PartsOfContext | expat-2.1.0/lib/xmlparse.c:5561-5620 | A context is read as the parts it was made of, for names without `=` and form feed and URIs without form feed |
| Contexts.StaysLawful | expat-2.1.0/lib/xmlparse.c:3080-3115 | Declarations in scope have passed the checks of declarations |
| Contexts.GetContext | expat-2.1.0/lib/xmlparse.c:5492-5558 | The context of the bindings in force and the open entities, in any order of the tables |
| Contexts.SetContext | expat-2.1.0/lib/xmlparse.c:5561-5620 | For any string: the declarations of its parts, up to the first error, and the known entities it names |
| Contexts.CopyContext | expat-2.1.0/lib/xmlparse.c:1090-1097 | A parser that takes over a context has every prefix, and the default, bound to the same namespace, and the same entities open |
| MessageProtocol.NextIsFresh | momosecpp/src/MessageNode.cpp:39-54 | The number of the next message of a node is not known to any node |
| MessageProtocol.ThinkKeeps | momosecpp/src/MessageModel.cpp:119-174 | A step keeps the invariant: lists without duplicates that agree with the maps, own messages known, `outgoing` right, every message a copy of one its sender created; what a node learns it has created or was sent in the step |
| MessageProtocol.RunKeeps | momosecpp/src/MessageModel.cpp:119-174 | The invariant holds in every state of every run from the start |
| MessageProtocol.NothingIsForgotten | momosecpp/src/MessageNode.cpp:182-212 | What a node knows it knows for ever, with the latency of the first receipt |
| MessageProtocol.NewestFirst | momosecpp/src/MessageNode.cpp:96-149 | What is pushed is picked newest first, each message once |
| MessageProtocol.PickedHas | momosecpp/src/MessageNode.cpp:96-149 | No message that may be picked is passed over |
| MessageProtocol.FriendsFirst | momosecpp/src/MessageNode.cpp:96-149 | A collaborator with friendships pushes the message of another only after all those of friends |
| MessagePushes.PushedIs | momosecpp/src/MessageNode.cpp:96-149 | In terms of node types and the list only: newest first, an adversary the messages of adversaries, a collaborator with friendships those of collaborators and then those of adversaries, one without all; the first `msg_exchange_num` of them unless that is negative |
| MessagePushes.PushesByType | momosecpp/src/MessageNode.cpp:108-133 | With no limit that matters, a collaborator pushes exactly what it knows, and an adversary exactly the messages of adversaries |
| MessagePushes.NewestOfAll | momosecpp/src/MessageNode.cpp:96-149 | Without friendships a collaborator pushes the newest messages of its list in reverse order, whoever sent them |
| MessageLatencies.NewIsDated | momosecpp/src/MessageNode.cpp:182-205 | What a node has received in a step has the time since its creation, which is the one its sender knows, and is not its own; what it has created has none |
| MessageProtocol.NodeMerges | momosecpp/src/MessageNode.cpp:164-180 | A merge takes in all assigned messages but at most one, and keeps what a node must keep |
| MessageProtocol.HopCarries | momosecpp/src/MessageNode.cpp:96-149 | What a node pushes in a step it had at the start of the step, or has created in it |
| MessageProtocol.RelayPath | momosecpp/src/MessageModel.cpp:119-174 | Every known message has come from its sender along pushes of the run, each to the partner of the node and among what it pushes, each new to the partner |
| MessageProtocol.HopsRise | momosecpp/src/MessageModel.cpp:119-174 | A node that a push has brought the message sends it on only in a later step |
| MessageProtocol.OneHopAStep | momosecpp/src/MessageModel.cpp:139-174 | On any way of pushes that bring the message it makes at most one hop in each step since nobody knew it |
| MessageProtocol.ForwardersAreCollaborators | momosecpp/src/MessageNode.cpp:96-149 | On every such way of a collaborator's message each forwarder is a collaborator, since adversaries do not pick it |
| MessageProtocol.MergeTakesAll | momosecpp/src/MessageNode.cpp:164-180 | For one order: a merge takes in everything exactly if nothing is assigned, or the message that comes first is known or comes again |
| MessageProtocol.EveryMergeTakesAll | momosecpp/src/MessageNode.cpp:164-180 | A merge takes in everything whatever the shuffle, if and only if every assigned message is known already or assigned twice |
| MessageProtocol.MessageIsLost | momosecpp/src/MessageNode.cpp:164-180 | A run of two nodes in which a message is pushed and lost |
| MessageNodes.MessageNode.CreateNewMessage | momosecpp/src/MessageNode.cpp:39-44 | A new message with the next number, at the end of the list |
| MessageNodes.MessageNode.InsertMessage | momosecpp/src/MessageNode.cpp:46-54 | List and map have the message |
| MessageNodes.MessageNode.PushMessagesTo | momosecpp/src/MessageNode.cpp:96-149 | The partner is assigned exactly the messages the protocol picks, at most `msg_exchange_num`: by the types of sender and node, newest first |
| MessageNodes.MessageNode.AssignTempMessages | momosecpp/src/MessageNode.cpp:151-162 | Assigned messages are added to those of earlier pushes |
| MessageNodes.MessageNode.MergeMessages | momosecpp/src/MessageNode.cpp:164-180 | The assigned messages, shuffled, are received but for the first |
| MessageNodes.MessageNode.ReceiveMessage | momosecpp/src/MessageNode.cpp:182-205 | A message that is known moves to the end of the list and keeps its latency; a new one gets it now |
| MessageNodes.MessageNode.InitFriendships | momosecpp/src/MessageNode.cpp:214-236 | Friends are the nodes of one's own type |
| MessageNodes.Shuffle | momosecpp/src/MessageNode.cpp:164-172 | The shuffle is a permutation |
| MessageModels.MessageModel.constructor | momosecpp/src/MessageModel.cpp:49-117 | The nodes as they are set up have the invariant |
| MessageModels.MessageModel.Think | momosecpp/src/MessageModel.cpp:119-174 | The three phases over the nodes are one step of the protocol, with partners in range, whatever chance decides |

Where the code and what is said of it disagree, the code is modelled:

- The converter from UTF-8 to UTF-8 says that it avoids copying partial characters. It does exactly if there is no room,
  room for everything, or the last byte there is room for is ASCII (`Transcoding.CopyEndsCharacter`); even a
  character that would just fit is cut (`Transcoding.PartIsCopied`).
- Text before a `]]>` in content is an event like any other, but the tokenizer takes both for one invalid token. In one
  piece the text is then not reported; cut behind its first character it is
  (`ChunkIndependence.TextBeforeBrackets`). Exactly these documents depend on how they are cut
  (`ChunkIndependence.CutsMatter`).
- A different name may be reported as a duplicate attribute: exactly if its hash is that of one before it, and it is what
  that one begins with as it is stored (`AttributeNames.ReportedIsTaken`; `AttributeNames.OtherNameIsFound` has a salt
  with which it happens).
- `mergeMessages` leaves out the first of the shuffled messages. Every shuffle takes in all exactly if every message is
  known already or assigned twice (`MessageProtocol.EveryMergeTakesAll`); one can be lost
  (`MessageProtocol.MessageIsLost`).

## Left out

- ChunkIndependence.ChunksDoNotMatter: content from the start tag of the root element to its end tag; the prolog, the epilog, declared entities in content, default attributes and suspension are not modelled.
- Documents.DocumentIsReported: name start characters are taken to be name characters, as they are in XML 1.0; the errors of content other than a wrong end tag, a repeated name and an early end are in the specification of content alone.
- EntityValues.NormalOfParts: attribute values in trees of `Documents` have no references to declared entities; those are stated for the value alone.
- Parsers.Parser.FeedAll: starts where the root element starts; input behind the root element is left alone, since epilog errors depend on how it is cut.
- Parsers.Parser.HandleTag: all handlers are taken to be set; attributes are taken as CDATA, without declared types and defaults.
- TagBuffers.StoreRawNames: buffers are addresses in a map, so that moving one is explicit; the padding of raw names to a multiple of the character size is that of one byte.
- Parsers.Parser.HandleToken: declared general entities in content and default handlers.
- Tags.ReadAttributes: declared attribute types and default attributes.
- NamespaceDocuments.ReportNames: takes the tags that the content parser reports, an empty element as its start and its end; the expanded names of attributes are modelled beside it (`AttributeNames`), and their errors are not among its errors.
- Namespaces.Namespaces.StartElement: objects and buffers are addresses in maps, not Dafny objects, so that sharing and moving are explicit.
- AttributeNames.AttributeStore.StoreNames: the values of attributes and their defaults are not part of it; bindings of the tag are given by the URIs of its prefixes.
- Contexts.CopyContext: the declarations in scope must be ones the parser has accepted (`Contexts.StaysLawful` says it accepts no others); the rest of an external entity parser is not modelled.
- ElementDeclarations.Declaration.HandleToken: tokens for names with and without a colon are one, the handler for element declarations is set, parameter entities are not expanded, and after an error no more tokens follow.
- StringPools.StringPool.Grow: the lists of blocks are sequences, and a reallocated block is a new one.
- MessageModels.MessageModel.Think: which nodes are in range, the choice of a partner, the shuffle, the clock and which nodes create a message are parameters; a node has not used up its message numbers.
- Name characters (`nametab.h`) are an arbitrary predicate of the encoding; bit masks are written with division and remainder.
- Other encodings, encoding detection, byte order of UTF-16, allocation failure and the width of integers.
- `ignoreSectionTok`, the prolog tokenizer, notations, attribute list declarations and external entities.
- Mobility, geometry, recorders and the user interface of the simulator.
