# eventFile: the LSE event-file codec and the writeMerge tool

This project models the core of `eventFile`, the library that writes and reads
LAT ".evt" files, and proves properties of that model.

An `.evt` file starts with a header: a 32-bit marker `0xFAF32000`, then the
`LSEHeader` block (run id, the begin and end seconds, the event count, the
first and last GEM sequence numbers, and four per-APID tables). Event records
follow the header. Each record holds:

- the `LSE_Context`;
- the EBF blob, as a length word and then the bytes;
- a tagged info block (an LPA, ACD, CAL or TKR info);
- in the files `writeMerge` produces, a tagged keys block after the info
  (LPA or LCI keys).

`LPA_File` is the older format. It has a run-id word, then records of context,
LPA info and EBF blob.

`writeMerge` reads an index file line by line. For every `EVT:` line it:

1. opens (once per file) a reader on the chunk file the line names;
2. seeks to the offset the line gives and reads the record there;
3. optionally forces the LATC master key of LPA events;
4. appends the record to the current output file.

When the current output holds as many events as the current threshold, the
file is closed and the threshold is rescaled.

The model works as follows:

- A C `FILE*` is a value `FileState(bytes, pos, eof)` (module `Stdio`).
  `fread`, `fwrite` and `fseeko` are functions on it, with the C item-count
  semantics: a zero-length `fwrite`/`fread` of one item reports 0 items.
- Every struct that the source writes with `fwrite(this, sizeof …)` or reads
  with `reinterpret_cast` is given an explicit little-endian field encoding
  without padding (module `Codec`). Each encoding has a decoder and a
  round-trip lemma.
- Classes whose fields the source updates in place are Dafny classes. These
  are `EBF_Data`, `LSEHeader`, `LPA_Info`, `LSEReader`, `LSEWriter` and
  `LPA_File`.
- The readers and writers are specified by pure functions over `FileState`.
  Lemmas then prove that writing a sequence of records produces a file the
  reader reads back record by record (`Session.FileRoundTrip`,
  `LpaFile.FileRoundTrip`).
- `writeMerge` is a loop over the index lines. It keeps a map of open readers,
  the current writer, the event counter and the threshold. `Merge.Merge` is
  proved equal to a functional specification, `Merge.MergeSpec`. Lemmas about
  that specification state what every output file holds.

`Codec` (byte encodings) and `Base` (results and errors) are support modules.
Their lemmas are helpers and have no rows below.

## Model

| member | source | states |
|---|---|---|
| Stdio.Opened | src/LSEReader.cxx:24-29 | a freshly opened file is positioned at byte 0 with its end-of-file flag clear |
| Stdio.Fread | src/EBF_Data.cxx:37-43 | `fread(buf, n, 1)` yields the n bytes at the position exactly when n > 0 and they exist; it never changes the file; on a short read it sets end-of-file |
| Stdio.Fwrite | src/EBF_Data.cxx:14-20 | `fwrite(buf, n, 1)` reports success exactly when n > 0; on success the position moves past the data; on failure nothing changes |
| Stdio.SpliceParts | src/LSEWriter.cxx:52-63 | writing in the middle of a file replaces exactly the written range; the bytes before it, and the bytes after it, are unchanged |
| Stdio.FwriteAt | src/LSEHeader.cxx:42-50 | after a write, the written bytes sit at the old position |
| Stdio.SeekSet | src/LSEReader.cxx:51-52 | `fseeko(SEEK_SET)` moves to the offset, keeps the contents and clears end-of-file |
| Stdio.SeekEnd | src/LSEWriter.cxx:52-63 | `fseeko(SEEK_END)` moves to the end of the contents |
| Stdio.FreadAt | src/EBF_Data.cxx:46-52 | reading the bytes that are at the position returns exactly them and moves past them |
| Stdio.FwriteAppends | src/EBF_Data.cxx:23-29 | a non-empty write at the end of a file appends the data |
| Stdio.FwriteSameBytes | src/LSEWriter.cxx:42-49 | rewriting the bytes already at the position leaves the contents unchanged |
| Stdio.AtSplit | src/LSEReader.cxx:82-98 | two images laid one after the other can be read one after the other |
| Stdio.AtAppended | src/LSEWriter.cxx:80-91 | an image appended after a prefix is found at the prefix's length |
| Handler.Cond | eventFile/LPA_Handler.h:92-102 | `COND<k>` is the enumerant k, above `OUTPUT` |
| Handler.Signed | eventFile/LPA_Handler.h:27 | the signed view of a stored word has the same four-byte image |
| Handler.DgnRsdV0 | src/LPA_Handler.cxx:85-91 | the DGN view exists exactly when `has`, version 0 and id DGN all hold; it shows the stored status word |
| Handler.GammaRsdV0 | src/LPA_Handler.cxx:93-99 | the gamma V0 view exists exactly for (has, 0, GAMMA); it shows the four stored words, the last one signed |
| Handler.HipRsdV0 | src/LPA_Handler.cxx:101-107 | the HIP view exists exactly for (has, 0, HIP) |
| Handler.MipRsdV0 | src/LPA_Handler.cxx:109-115 | the MIP view exists exactly for (has, 0, MIP) |
| Handler.PassthruRsdV0 | src/LPA_Handler.cxx:117-123 | the pass-through view exists exactly for (has, 0, PASS_THRU) |
| Handler.GammaRsdV1 | src/LPA_Handler.cxx:125-131 | the gamma V1 view exists exactly for (has, 1, GAMMA) |
| Handler.GammaRsdV2 | src/LPA_Handler.cxx:133-139 | the gamma V2 view exists exactly for (has, 2, GAMMA) |
| Handler.AtMostOneRsd | src/LPA_Handler.cxx:85-139 | at most one union view is ever returned; exactly one is returned iff the (has, version, id) triple is one of the seven known ones |
| Handler.NoRsdOutsideKnownTriples | src/LPA_Handler.cxx:85-139 | no view is returned without summary data, for the ASC handler, or for an RSD version past 2 |
| Handler.DefaultHasNoRsd | eventFile/LPA_Handler.h:105-108 | a default-constructed handler has no view; it is named "Unknown" / "Invalid" / "Unsupported" / "Invalid" |
| Handler.Default | eventFile/LPA_Handler.h:105-108 | the default handler presents no summary-data view |
| Handler.Stage | src/LPA_Handler.cxx:14-27 | `stage()` keeps only bits that are both in the stage mask and in the status word |
| Handler.GemClasses | src/LPA_Handler.cxx:8-12 | `gem_classes()`, shifted back, has only bits that are in the class mask and in the status word |
| Handler.TypeName | src/LPA_Handler.cxx:141-152 | in range, the name is the table entry at type + 1; "Invalid" is returned exactly when the type is out of range |
| Handler.HandlerName | src/LPA_Handler.cxx:154-168 | in range, the name is the table entry at the id; "Invalid" exactly when the id is out of range |
| Handler.StateName | src/LPA_Handler.cxx:170-184 | the name is the table entry at state + 1; "Invalid" exactly for INVALID and out-of-range states |
| Handler.PrescalerName | src/LPA_Handler.cxx:186-205 | in range, the name is the table entry at prescaler + 3; "Invalid" exactly when out of range |
| Handler.TypeNamesDistinct | src/LPA_Handler.cxx:141-144 | distinct in-range handler types have distinct names |
| Handler.HandlerNamesDistinct | src/LPA_Handler.cxx:154-160 | distinct in-range handler ids have distinct names |
| Handler.StateNamesDistinct | src/LPA_Handler.cxx:170-176 | distinct RSD states have distinct names |
| Handler.RsdImage | eventFile/LPA_Handler.h:43-49 | the RSD union occupies 16 bytes |
| Handler.RsdRoundTrip | eventFile/LPA_Handler.h:43-49 | the union storage decodes back from its image |
| Handler.Image | eventFile/LPA_Handler.h:111-120 | a handler's image has the fixed handler size |
| Handler.RoundTrip | eventFile/LPA_Handler.h:111-120 | a handler decodes back from its image, all ten fields |
| Context.GemTimeImage | eventFile/LSE_GemTime.h:19-24 | a GEM time (hacks, tics) occupies 8 bytes |
| Context.GemTimeRoundTrip | eventFile/LSE_GemTime.h:19-24 | a GEM time decodes back from its image |
| Context.CcsdsImage | eventFile/LSE_Context.h:18-24 | the CCSDS part occupies 16 bytes |
| Context.CcsdsRoundTrip | eventFile/LSE_Context.h:18-24 | the CCSDS part decodes back from its image |
| Context.FlagsImage | eventFile/LSE_Context.h:26-38 | the five time-tone flags occupy 5 bytes |
| Context.TimetoneImage | eventFile/LSE_Context.h:26-38 | a time tone occupies 25 bytes |
| Context.TimetoneRoundTrip | eventFile/LSE_Context.h:26-38 | a time tone, flags included, decodes back from its image |
| Context.ScalersImage | eventFile/LSE_Context.h:40-49 | the scalers occupy 48 bytes |
| Context.ScalersRoundTrip | eventFile/LSE_Context.h:40-49 | the scalers decode back from their image |
| Context.RunImage | eventFile/LSE_Context.h:51-60 | the run part occupies 48 bytes |
| Context.RunRoundTrip | eventFile/LSE_Context.h:51-60 | the run part decodes back from its image |
| Context.OpenImage | eventFile/LSE_Context.h:62-75 | the open-action part occupies 88 bytes |
| Context.OpenRoundTrip | eventFile/LSE_Context.h:62-75 | the open-action part decodes back from its image |
| Context.CloseImage | eventFile/LSE_Context.h:77-84 | the close-action part occupies 40 bytes |
| Context.CloseRoundTrip | eventFile/LSE_Context.h:77-84 | the close-action part decodes back from its image |
| Context.Image | eventFile/LSE_Context.h:86-111 | a context image has the fixed context size |
| Context.RoundTrip | eventFile/LSE_Context.h:86-111 | a whole `LSE_Context` decodes back from its image |
| Info.CommonImage | eventFile/LSE_Info.h:18-32 | the common info fields occupy the common size |
| Info.CommonRoundTrip | eventFile/LSE_Info.h:18-32 | the common info decodes back from its image |
| Info.LpaFixedImage | src/LSE_Info.cxx:47-54 | the fixed part of an LPA info occupies the fixed size |
| Info.LpaFixedRoundTrip | src/LSE_Info.cxx:84-92 | the fixed LPA part decodes back from what the writer writes |
| Info.LciImage | eventFile/LSE_Info.h:41-50 | the LCI info base occupies the LCI size |
| Info.LciRoundTrip | eventFile/LSE_Info.h:41-50 | the LCI base decodes back from its image |
| Info.ChannelImage | eventFile/LSE_Info.h:52-60 | a channel selection occupies 4 bytes |
| Info.ChannelRoundTrip | eventFile/LSE_Info.h:52-60 | a channel selection decodes back from its image |
| Info.AcdImage | eventFile/LSE_Info.h:81-90 | an ACD info occupies the ACD size |
| Info.AcdRoundTrip | eventFile/LSE_Info.h:81-90 | an ACD info, trigger included, decodes back from its image |
| Info.AcdLayout | eventFile/LSE_Info.h:81-90 | each ACD field, the LCI part and the channel sits at its fixed offset in the image |
| Info.CalImage | eventFile/LSE_Info.h:92-101 | a CAL info occupies the CAL size |
| Info.CalRoundTrip | eventFile/LSE_Info.h:92-101 | a CAL info, trigger included, decodes back from its image |
| Info.TkrImage | eventFile/LSE_Info.h:103-110 | a TKR info occupies the TKR size |
| Info.TkrRoundTrip | eventFile/LSE_Info.h:103-110 | a TKR info decodes back from its image |
| Info.CommonPrefix | eventFile/LSE_Info.h:34-50 | every derived info's image begins with its base's image, as the inheritance lays it out |
| Info.HandlersImage | src/LSE_Info.cxx:72-78 | the handler block is the handler size times the handler count |
| Info.DecHandlers | src/LSE_Info.cxx:110-118 | decoding n handler images yields n handlers |
| Info.HandlersRoundTrip | src/LSE_Info.cxx:110-118 | a handler vector decodes back from its block |
| Info.HandlersConsRoundTrip | src/LSE_Info.cxx:110-118 | one handler record in front of a block that decodes as a vector decodes as that handler followed by the vector |
| Info.DecHandlersCons | src/LSE_Info.cxx:110-118 | decoding a record followed by more records yields that record first, then the rest |
| Info.Count | src/LSE_Info.cxx:57-64 | the stored count is the vector's length truncated to 32 bits, never more than the length |
| Info.LpaBody | src/LSE_Info.cxx:47-78 | the LPA body is the fixed part, the count word and the counted handlers |
| Info.EmptyLpa | eventFile/LSE_Info.h:34-39 | a default LPA info has a count of 0, and its body decodes back to it |
| Info.DecLpaBody | src/LSE_Info.cxx:84-118 | a decoded LPA body has exactly the length its count implies |
| Info.LpaBodyRoundTrip | src/LSE_Info.cxx:33-119 | the reader gets back the fixed part and the first `count` handlers that the writer wrote |
| Info.WriteLpaInfo | src/LSE_Info.cxx:33-79 | `LPA_Info::write` keeps the file position within the contents |
| Info.ReadLpaInfo | src/LSE_Info.cxx:81-119 | `LPA_Info::read` never changes the file's contents |
| Info.WriteLpaPrefix | src/LSE_Info.cxx:37-64 | at the end of a file, the tag, fixed part and count writes all succeed and append those three images |
| Info.WriteLpaInfoAppends | src/LSE_Info.cxx:33-79 | at the end of a file, writing an LPA info appends the tag and the body and succeeds, including with zero handlers |
| Info.ReadLpaSteps | src/LSE_Info.cxx:81-119 | reading fixed part, count and handlers decodes them; with a count of 0 the previous handler vector is kept |
| Info.ReadLpaInfoBody | src/LSE_Info.cxx:81-119 | reading a written body yields the written info, with the handlers cut to the stored count |
| Info.ReadLpaInfoCount | src/LSE_Info.cxx:95-118 | count 0 keeps the prior handlers; a positive count yields that many handlers; it fails exactly when the handler block is short |
| Info.LpaInfoRecord.constructor | eventFile/LSE_Info.h:34-39 | a new LPA info holds the given value |
| Info.LpaInfoRecord.Write | src/LSE_Info.cxx:33-79 | the method writes exactly what `WriteLpaInfo` specifies |
| Info.LpaInfoRecord.Read | src/LSE_Info.cxx:81-119 | the method reads as `ReadLpaInfo` specifies; on failure the error is a short read |
| Ebf.Image | src/EBF_Data.cxx:9-30 | a blob's image is the 4-byte length followed by the bytes |
| Ebf.WriteBlob | src/EBF_Data.cxx:9-30 | writing a blob keeps the position within the contents and keeps the end-of-file flag |
| Ebf.ReadBlob | src/EBF_Data.cxx:32-53 | a blob read never changes the file, and yields between 1 and 128 KiB of bytes |
| Ebf.WriteBlobAppends | src/EBF_Data.cxx:9-30 | at the end of a file, a non-empty blob is appended; an empty blob fails the data write after the length was written |
| Ebf.ReadBlobImage | src/EBF_Data.cxx:32-53 | reading a written non-empty blob returns exactly its bytes and moves past it |
| Ebf.EbfData.Payload | eventFile/EBF_Data.h:32-33 | the payload is the first `len` bytes of the buffer |
| Ebf.EbfData.constructor | eventFile/EBF_Data.h:25 | a new blob owns a fresh buffer and is empty |
| Ebf.EbfData.Start | eventFile/EBF_Data.h:27 | `start()` is the beginning of the buffer |
| Ebf.EbfData.End | eventFile/EBF_Data.h:28 | `end()` is `len` bytes in, within the buffer |
| Ebf.EbfData.Size | eventFile/EBF_Data.h:29 | `size()` is the distance from start to end, at most the capacity |
| Ebf.EbfData.Init | src/EBF_Data.cxx:55-61 | `init` stores the frame marker, `nbytes + 8` and the payload; the length becomes `nbytes + 8`; the rest of the buffer is untouched |
| Ebf.EbfData.Write | src/EBF_Data.cxx:9-30 | the method writes exactly what `WriteBlob` specifies for the current payload |
| Ebf.EbfData.Read | src/EBF_Data.cxx:32-53 | the method reads as `ReadBlob` specifies; on success the payload is the bytes read and the buffer beyond it is untouched |
| Header.Zero | src/LSEHeader.cxx:11-18 | the constructor's all-zero header is well formed |
| Header.TableImage | eventFile/LSEHeader.h:32-35 | a per-APID table occupies 16 bytes |
| Header.DecTable | eventFile/LSEHeader.h:32-35 | decoding a table yields `LSEHEADER_MAX_APIDS` entries |
| Header.Block | eventFile/LSEHeader.h:26-35 | the header block occupies the block size |
| Header.DecBlock | src/LSEHeader.cxx:32-39 | a decoded block is well formed |
| Header.Image | src/LSEHeader.cxx:42-50 | the header image starts with the marker `0xFAF32000` |
| Header.TableRoundTrip | eventFile/LSEHeader.h:32-35 | a table decodes back from its image |
| Header.BlockRoundTrip | eventFile/LSEHeader.h:26-35 | the whole header block decodes back from its image |
| Header.ReadHeader | src/LSEHeader.cxx:20-40 | `LSEHeader::read` never changes the file |
| Header.ReadHeaderRejectsBadMagic | src/LSEHeader.cxx:23-29 | a wrong marker is rejected as an invalid header |
| Header.ReadHeaderRejectsShortBlock | src/LSEHeader.cxx:32-39 | a right marker followed by too few bytes fails as a short read |
| Header.ReadHeaderImage | src/LSEHeader.cxx:20-50 | reading what `write` wrote returns the same header |
| Header.LseHeader.Value | eventFile/LSEHeader.h:26-35 | the object's fields form a well-formed header value |
| Header.LseHeader.constructor | src/LSEHeader.cxx:11-18 | a new header is all zeros |
| Header.LseHeader.Assign | src/LSEHeader.cxx:32-39 | the whole block is replaced by the given value |
| Header.LseHeader.Read | src/LSEHeader.cxx:20-40 | the method reads as `ReadHeader` specifies; after a bad marker the header is unchanged |
| Header.LseHeader.Write | src/LSEHeader.cxx:42-50 | the marker and then the block are written; the image sits at the old position |
| Header.WriteAtCursor | src/LSEHeader.cxx:42-50 | the two writes lay down the header image at the position |
| Keys.WordsImage | eventFile/LSE_Keys.h:35-40 | a key-word vector occupies 4 bytes per word |
| Keys.DecWords | eventFile/LSE_Keys.h:35-40 | decoding n words yields n words |
| Keys.WordsRoundTrip | eventFile/LSE_Keys.h:35-40 | a word vector decodes back from its image |
| Keys.KeyCount | eventFile/LSE_Keys.h:35-40 | the stored CDM-key count is the length truncated to 32 bits |
| Keys.LpaKeysImage | eventFile/LSE_Keys.h:35-40 | an LPA keys image has the master, ignore and count words, then the keys |
| Keys.DefaultLpaKeys | eventFile/LSE_Keys.h:36 | default LPA keys are written as two all-ones words and a count of 0 |
| Keys.DefaultLciKeys | eventFile/LSE_Keys.h:43 | default LCI keys are written as three all-ones words |
| Keys.DecLpaKeys | eventFile/LSE_Keys.h:35-40 | a decoded LPA keys block has exactly the length its count implies |
| Keys.LpaKeysRoundTrip | eventFile/LSE_Keys.h:27-40 | LPA keys decode back, keys cut to the stored count |
| Keys.LciKeysImage | eventFile/LSE_Keys.h:42-47 | LCI keys occupy a fixed size |
| Keys.LciKeysRoundTrip | eventFile/LSE_Keys.h:42-47 | LCI keys decode back from their image |
| Event.Pinfo | eventFile/LSE_Event.h:61 | the LPA info is returned exactly when the info type is LPA, and it is the stored one |
| Event.Ainfo | eventFile/LSE_Event.h:62 | the ACD info is returned exactly for LCI_ACD |
| Event.Cinfo | eventFile/LSE_Event.h:63 | the CAL info is returned exactly for LCI_CAL |
| Event.Tinfo | eventFile/LSE_Event.h:64 | the TKR info is returned exactly for LCI_TKR |
| Event.Pakeys | eventFile/LSE_Event.h:65 | the LPA keys are returned exactly when the keys type is LPA |
| Event.Cikeys | eventFile/LSE_Event.h:66 | the LCI keys are returned exactly when the keys type is LCI |
| Event.AtMostOneInfo | src/LSE_Event.h:64-67 | at most one info accessor answers; one does exactly for the four known types, none for NONE |
| Event.AtMostOneKeys | src/LSE_Event.h:68-69 | at most one keys accessor answers; one does exactly for the known keys types |
| Event.AccessorsReturnArguments | eventFile/LSE_Event.h:45-66 | each accessor returns the constructor argument it stores, when its type is selected |
| Record.InfoTag | src/LSEWriter.cxx:127-153 | the tag written for an info identifies its kind, one tag per kind |
| Record.InfoBody | src/LSEWriter.cxx:127-153 | the info body is non-empty and its length fits a `size_t` |
| Record.KeysTag | src/writeMerge.cxx:196-205 | the keys tag identifies LPA or LCI keys |
| Record.KeysBody | src/writeMerge.cxx:196-205 | the keys body is non-empty and its length fits a `size_t` |
| Record.BlockImage | src/LSEWriter.cxx:93-125 | a tagged block is the 4-byte tag, the 8-byte length and the body |
| Record.RecordImageParts | src/LSEWriter.cxx:80-132 | a record is the context image, the blob image and the info block, in this order |
| Reader.ReadWordOr | src/LPA_File.cxx:35-42 | an unchecked 4-byte read yields the word, or leaves the prior value and sets end-of-file |
| Reader.ReadLongOr | src/LSEReader.cxx:68-70 | an unchecked 8-byte read yields the word, or leaves the prior value and sets end-of-file |
| Reader.ReadStatsAsWritten | src/LSEReader.cxx:48-71 | the header read as written fails exactly when the marker is wrong or missing |
| Reader.ReadStatsSteps | src/LSEReader.cxx:65-70 | as written, the run id is the word after the marker and the statistics are the next three 8-byte words |
| Reader.ReadStatsAsWrittenOnHeader | src/LSEReader.cxx:65-70 | on a written header, the as-written read returns the seconds as the event count, the count as the first GEM sequence and the first GEM sequence as the last |
| Reader.ReadStatsAsWrittenMisreads | src/LSEReader.cxx:68 | a header with `secs_beg` = 1 and a zero event count reads back an event count of 1 |
| Reader.ReadStats | src/LSEReader.cxx:48-71 | the corrected header read never changes the file |
| Reader.ReadStatsOnHeader | src/LSEReader.cxx:48-71 | on a written header, the corrected read returns its run id, event count and GEM sequences and stops at the first record |
| Reader.ReadStatsRejectsBadMagic | src/LSEReader.cxx:55-62 | a wrong marker is "not an LSE file", in both reads |
| Reader.HeaderErrorIsRead | src/LSEReader.cxx:48-71 | the error a file's header yields is exactly the failure of the header read |
| Reader.HeaderError | src/LSEReader.cxx:48-71 | a header is rejected for a bad marker or a short block; one that is accepted holds the marker and the full block |
| Reader.ReadCommon | src/LSEReader.cxx:73-101 | at end of file, or with less than a context left, there is no event; an event read has a payload of 1 to 128 KiB |
| Reader.ReadBlock | src/LSEReader.cxx:103-134 | a block read moves past tag, length and body; a short tag or length is a short read; an over-long body is an overflow |
| Reader.AssignInfo | src/LSEReader.cxx:150-165 | the info type becomes the tag; only the matching info is replaced; an unknown tag changes nothing else; a body whose length does not match the tag's image fails with `SizeMismatch`, where the source reinterprets it without a check |
| Reader.AssignKeys | src/writeMerge.cxx:159 | the keys type becomes the tag; only the matching keys are replaced; nothing else changes; a body whose length does not match the tag's image fails with `SizeMismatch`, where the typed read it copies reinterprets it without a check |
| Reader.Stored | src/LSE_Info.cxx:57-118 | an LPA info comes back with the same fixed part and its handlers cut to the stored count |
| Reader.AssignInfoBody | src/LSEReader.cxx:150-165 | assigning a written info block yields exactly that info |
| Reader.AssignKeysBody | src/writeMerge.cxx:159 | assigning a written keys block yields exactly those keys |
| Reader.ReadTyped | src/LSEReader.cxx:136-168 | the typed read returns false when no event is left, keeps the keys outputs and yields a bounded payload |
| Reader.ReadKeyed | src/writeMerge.cxx:159 | the keyed read returns false when no event is left and yields a bounded payload |
| Reader.ReadCommonAt | src/LSEReader.cxx:73-101 | on a context and a blob image, the read decodes both and moves past them |
| Reader.ReadBlockImage | src/LSEReader.cxx:103-134 | on a block image, the raw read returns its tag and body |
| Reader.ReadTypedAt | src/LSEReader.cxx:136-168 | the typed read is the common read, then the block read, then the assignment |
| Reader.ReadCommonBefore | src/LSEReader.cxx:82-98 | the common read of a record image decodes its leading context and blob |
| Reader.ReadBlockAfter | src/LSEReader.cxx:103-134 | the block after the common part reads back its tag and body |
| Reader.ReadTypedImage | src/LSEReader.cxx:136-168 | reading a written typed record returns its context, payload and info and moves past it |
| Reader.ReadKeyedAt | src/writeMerge.cxx:159 | the keyed read is the typed read followed by a keys block |
| Reader.ReadKeyedImage | src/writeMerge.cxx:159 | reading a written keyed record returns its context, payload, info and keys and moves past it |
| Reader.ReadKeyedStops | src/LSEReader.cxx:139-141 | when the typed part fails or finds no event, the keyed read does the same |
| Reader.ReadKeyedGoesOn | src/writeMerge.cxx:159 | after a typed part, a keys-block failure becomes the keyed read's failure; a good block is assigned |
| Reader.ReadAtEnd | src/LSEReader.cxx:79 | at end of file both reads report no event |
| Reader.Status | src/LSEReader.cxx:73-101 | the boolean read result is true exactly when an event was read; an exception is kept as an error |
| Reader.LseReader.constructor | src/LSEReader.cxx:16-33 | a new reader is open at the start of the file with zero statistics |
| Reader.LseReader.ReadHeader | src/LSEReader.cxx:48-71 | the statistics become what the corrected header read `ReadStats` returns, and the cursor ends after the header block, or its error is raised |
| Reader.LseReader.Open | src/LSEReader.cxx:16-33 | a missing file is an open error; otherwise the reader exists exactly when the corrected header read succeeds, with its statistics |
| Reader.LseReader.Close | src/LSEReader.cxx:40-46 | the reader is closed; nothing else changes |
| Reader.LseReader.Seek | src/writeMerge.cxx:158 | the file moves to the offset; the statistics are kept |
| Reader.LseReader.ReadRaw | src/LSEReader.cxx:103-134 | the raw read is `ReadBlock` on the reader's file |
| Reader.LseReader.ReadCommonInto | src/LSEReader.cxx:73-101 | the method is `ReadCommon` on the reader's file: no event at end of file, an error on a failed blob read, else the decoded context with the blob holding the payload |
| Reader.LseReader.Read | src/LSEReader.cxx:136-168 | the method is `ReadTyped` on the reader's file; on true the blob holds the payload |
| Reader.LseReader.ReadWithKeys | src/writeMerge.cxx:159 | the method is `ReadKeyed` on the reader's file; on true the blob holds the payload |
| Writer.WriteCommon | src/LSEWriter.cxx:80-91 | writing context and blob keeps the position within the contents |
| Writer.WriteBlock | src/LSEWriter.cxx:93-125 | writing a tagged block keeps the position within the contents |
| Writer.WriteTyped | src/LSEWriter.cxx:127-153 | writing a typed record keeps the position within the contents |
| Writer.WriteKeyed | src/writeMerge.cxx:196-205 | writing a keyed record keeps the position within the contents |
| Writer.WriteHeaderOnEmpty | src/LSEWriter.cxx:16-35 | on a new file, `writeHeader` leaves exactly the header image, with the position after it |
| Writer.WriteHeaderAt | src/LSEWriter.cxx:52-63 | `writeHeader` leaves the header image at offset 0 and the cursor at the end of the file, with the indicator clear |
| Writer.WriteHeaderAgain | src/LSEWriter.cxx:42-63 | rewriting an unchanged header leaves the file as it was, with the position at its end |
| Writer.WriteCommonAppends | src/LSEWriter.cxx:80-91 | at the end of a file, context and non-empty blob are appended |
| Writer.WriteCommonEmptyPayload | src/EBF_Data.cxx:23-29 | an empty blob fails with the context and the zero length already written |
| Writer.WriteBlockAppends | src/LSEWriter.cxx:93-125 | at the end of a file, a non-empty block is appended as its image |
| Writer.WriteTypedThen | src/LSEWriter.cxx:127-153 | a typed write is the common write followed by the info block |
| Writer.WriteKeyedThen | src/writeMerge.cxx:196-205 | a keyed write is the typed write followed by the keys block |
| Writer.WriteTypedAppends | src/LSEWriter.cxx:127-153 | at the end of a file, a typed record with a payload is appended as its image |
| Writer.WriteKeyedAppends | src/writeMerge.cxx:196-205 | at the end of a file, a keyed record with a payload is appended as its image |
| Writer.WriteTypedEmptyPayload | src/EBF_Data.cxx:23-29 | with an empty payload both writes fail after the context and the length, and write no info |
| Writer.ExtendsTrans | src/LSEWriter.cxx:80-153 | appending twice is appending |
| Writer.ExtendsKeeps | src/LSEWriter.cxx:80-153 | appending keeps every byte already there |
| Writer.WriteTypedExtends | src/LSEWriter.cxx:127-153 | a typed write at the end only appends, even when it fails |
| Writer.WriteKeyedExtends | src/writeMerge.cxx:196-205 | a keyed write at the end only appends, even when it fails |
| Writer.LseWriter.constructor | src/LSEWriter.cxx:16-35 | a new writer is open, and its file is the header image for the run id with zero statistics |
| Writer.LseWriter.WriteHeader | src/LSEWriter.cxx:52-63 | the header is rewritten at the start and the position returns to the end |
| Writer.LseWriter.Close | src/LSEWriter.cxx:42-49 | closing rewrites the unchanged header; the contents stay the same and the writer is closed |
| Writer.LseWriter.Write | src/LSEWriter.cxx:127-153 | the method writes exactly what `WriteTyped` specifies |
| Writer.LseWriter.WriteWithKeys | src/writeMerge.cxx:196-205 | the method writes exactly what `WriteKeyed` specifies |
| Writer.LseWriter.WriteBlockHere | src/LSEWriter.cxx:93-125 | the method writes exactly what `WriteBlock` specifies |
| Session.FlattenSnoc | src/LSEWriter.cxx:80-153 | the file image of one more record is the old image followed by that record |
| Session.ImagesSnoc | src/LSEWriter.cxx:80-153 | the records' image grows by exactly the new record's image |
| Session.ImageListSnoc | src/LSEWriter.cxx:80-153 | the list of record images grows by exactly the new record's image |
| Session.FileImageSnoc | src/LSEWriter.cxx:16-153 | header plus records grows by exactly the new record's image |
| Session.WriteOneMore | src/writeMerge.cxx:196-205 | writing a record at the end of a file of records yields the file of one more record |
| Session.Expected | src/writeMerge.cxx:159 | the reads expected back from n records are n results |
| Session.ReadNStep | src/writeMerge.cxx:159 | n reads are one read followed by n - 1 reads |
| Session.ExpectedCons | src/writeMerge.cxx:159 | the expected results are the first record's result, then the rest from the updated outputs |
| Session.ReadEntry | src/writeMerge.cxx:159 | the keyed read of one written record returns it and moves past it |
| Session.ReadNReadsBack | src/writeMerge.cxx:159 | reading back record by record returns exactly the expected results |
| Session.ReadsBackCons | src/writeMerge.cxx:159 | reading back the rest after a first good read is reading back all |
| Session.AtFlattenFirst | src/LSEReader.cxx:82-98 | in a file of concatenated records, the first one is at the position and the rest follow it |
| Session.ReadsEachTail | src/writeMerge.cxx:159 | the reads-each property holds for the tail |
| Session.FlattenReadsBack | src/writeMerge.cxx:159 | if each image reads back its record, the concatenation reads back all records |
| Session.ReadEntryAt | src/writeMerge.cxx:159 | the i-th record image reads back the i-th record |
| Session.KeyedReadsEach | src/writeMerge.cxx:159 | every written keyed record reads back |
| Session.ReadNImages | src/writeMerge.cxx:159 | reading a file's records returns all of them and stops at the end of the image |
| Session.FileRoundTrip | src/writeMerge.cxx:159-205 | a file written by the writer reads back: header statistics (runid, 0, 0, 0), every record in order, then "no event" |
| LpaFile.RecordImage | src/LPA_File.cxx:58-78 | an LPA record is the context, the LPA body and the blob |
| LpaFile.WriteRecord | src/LPA_File.cxx:58-78 | writing a record keeps the position within the contents |
| LpaFile.ReadRecord | src/LPA_File.cxx:80-122 | a record read never changes the file and yields a payload of 1 to 128 KiB |
| LpaFile.Stored | src/LSE_Info.cxx:57-118 | a record comes back with the same context, payload and fixed info, and its handlers cut to the stored count |
| LpaFile.WriteRecordThen | src/LPA_File.cxx:58-78 | after the context and info writes, the record write is the blob write |
| LpaFile.WriteRecordAppends | src/LPA_File.cxx:58-78 | at the end of a file, a record with a payload is appended; an empty payload fails |
| LpaFile.ReadRecordThen | src/LPA_File.cxx:80-122 | a record read is the context read, then the info read, then the blob read |
| LpaFile.ReadRecordSteps | src/LPA_File.cxx:89-119 | on a context, body and blob image, the read decodes them all |
| LpaFile.SplitRecord | src/LPA_File.cxx:58-78 | a record image is the context, then the body, then the blob |
| LpaFile.ReadRecordImage | src/LPA_File.cxx:58-122 | reading a written record returns it, with the handlers cut to the stored count |
| LpaFile.ReadAtEnd | src/LPA_File.cxx:86 | at end of file the read returns false |
| LpaFile.ShortInfoFails | src/LPA_File.cxx:106-113 | a context followed by a short info fails as a short read |
| LpaFile.ShortContextEnds | src/LPA_File.cxx:89-100 | a partial context returns false and sets end-of-file |
| LpaFile.FileImageSnoc | src/LPA_File.cxx:18-78 | the file of one more record is the old file followed by that record |
| LpaFile.ImagesSnoc | src/LPA_File.cxx:58-78 | the records' image grows by exactly the new record's image |
| LpaFile.ImageListSnoc | src/LPA_File.cxx:58-78 | the list of record images grows by exactly the new record's image |
| LpaFile.WriteOneMore | src/LPA_File.cxx:58-78 | writing a record at the end of a file of records yields the file of one more record |
| LpaFile.StoredAll | src/LPA_File.cxx:80-122 | the expected read-back is each record as stored |
| LpaFile.ReadNReadsBack | src/LPA_File.cxx:80-122 | reading back record by record returns exactly the stored records |
| LpaFile.ReadsEachTail | src/LPA_File.cxx:80-122 | the reads-each property holds for the tail |
| LpaFile.FlattenReadsBack | src/LPA_File.cxx:80-122 | if each image reads back its record, the concatenation reads back all records |
| LpaFile.ReadRecordAt | src/LPA_File.cxx:80-122 | the i-th record image reads back the i-th record |
| LpaFile.RecordsReadEach | src/LPA_File.cxx:80-122 | every written record reads back |
| LpaFile.ReadNImages | src/LPA_File.cxx:80-122 | reading a file's records returns all of them as stored |
| LpaFile.OpenReadsRunId | src/LPA_File.cxx:35-42 | opening a written file for reading yields its run id, and the records start after it |
| LpaFile.FileRoundTrip | src/LPA_File.cxx:18-122 | a written LPA file reads back its run id, every record as stored, then false |
| LpaFile.Status | src/LPA_File.cxx:80-122 | the boolean read result is true exactly when a record was read |
| LpaFile.LpaFile.constructor | src/LPA_File.cxx:18-43 | a read-mode file reads its run id from the start; a write-mode file holds the run id word; the statistics start at 0 |
| LpaFile.LpaFile.Open | src/LPA_File.cxx:18-43 | a read-mode open of a missing file fails; otherwise the file opens as the constructor specifies |
| LpaFile.LpaFile.Close | src/LPA_File.cxx:50-56 | the file is closed; contents and run id unchanged |
| LpaFile.LpaFile.Write | src/LPA_File.cxx:58-78 | the method writes exactly what `WriteRecord` specifies |
| LpaFile.LpaFile.Read | src/LPA_File.cxx:80-122 | the method reads as `ReadRecord` specifies; on false the context and info are left as they were |
| LpaFile.LpaFile.SetEvtcnt | eventFile/LPA_File.h:35 | only the event count changes |
| LpaFile.LpaFile.SetBegGEM | eventFile/LPA_File.h:36 | only the first GEM sequence changes |
| LpaFile.LpaFile.SetEndGEM | eventFile/LPA_File.h:37 | only the last GEM sequence changes |
| EvtIndex.WordLen | src/writeMerge.cxx:39-59 | the first token's length is the length of the run of non-blanks at the start |
| EvtIndex.Tokens | src/writeMerge.cxx:39-59 | the `>>` extraction splits a line into non-empty blank-free words |
| EvtIndex.WordLenOfWord | src/writeMerge.cxx:39-59 | a word followed by a blank or the end is one token of its own length |
| EvtIndex.WordLenPrefix | src/writeMerge.cxx:39-59 | a blank ends the first token |
| EvtIndex.TokensAppend | src/writeMerge.cxx:39-59 | the tokens of two texts joined by a blank are the tokens of each |
| EvtIndex.TokensUnwords | src/writeMerge.cxx:39-59 | splitting words joined by blanks gives back the words |
| EvtIndex.ParseNum | src/writeMerge.cxx:45-57 | a numeric field is accepted only below the bound of its C type |
| EvtIndex.Parse | src/writeMerge.cxx:39-59 | a line with fewer than nine tokens is rejected; a parsed entry has blank-free text fields, its tag is the first token, and its offset fits an `off_t` |
| EvtIndex.Decimal | src/writeMerge.cxx:45-57 | a number prints as a non-empty string of digits |
| EvtIndex.DecimalValue | src/writeMerge.cxx:45-57 | the printed digits have the number's value |
| EvtIndex.ParseDecimal | src/writeMerge.cxx:45-57 | a printed number in range parses back to itself |
| EvtIndex.DecimalIsWord | src/writeMerge.cxx:45-57 | a printed number is a single token |
| EvtIndex.ParseFormat | src/writeMerge.cxx:22-59 | an index entry written as a line parses back to the same entry |
| EvtIndex.ParseIgnoresRest | src/writeMerge.cxx:39-59 | anything after the nine extracted fields does not change the entry |
| EvtIndex.EventLineTag | src/writeMerge.cxx:139 | an event line's first token begins with `EVT:` |
| EvtIndex.IsEventLine | src/writeMerge.cxx:139 | an event line starts with four non-blank characters |
| Merge.Trunc | src/writeMerge.cxx:228 | the conversion to `int` drops the fraction, toward zero |
| Merge.Rotates | src/writeMerge.cxx:221 | a threshold of 0 or less never rotates; the event that brings the count to a positive threshold does |
| Merge.NextMaxAsWritten | src/writeMerge.cxx:226-228 | at or below the floor the threshold goes back to the maximum; above it, with a scale in [0, 1], it does not grow but may fall to 0 |
| Merge.NextMax | src/writeMerge.cxx:226-228 | the corrected rule: the threshold is the maximum or at least 1; above the floor, with a scale in [0, 1], it stays between 1 and the current threshold |
| Merge.NextMaxAsWrittenStalls | src/writeMerge.cxx:221-228 | with one event per file, the rule as written sets the threshold to 0, and a threshold of 0 never rotates |
| Merge.NextMaxClamps | src/writeMerge.cxx:228 | the corrected rule is the one as written, kept at 1 or more |
| Merge.NextMaxInRange | src/writeMerge.cxx:221-228 | with a positive maximum and a scale of at most 1, the threshold stays between 1 and the maximum |
| Merge.NextMaxShrinks | src/writeMerge.cxx:228 | above the floor, with a scale below 1, the threshold strictly decreases unless it is already 1 |
| Merge.ReadAt | src/writeMerge.cxx:156-167 | an event read at an offset has a payload of 1 to 128 KiB |
| Merge.Fetch | src/writeMerge.cxx:144-167 | fetching from a file that is not there is an open error; a fetched event has a bounded payload |
| Merge.Overridden | src/writeMerge.cxx:192-196 | only the LATC master key of an LPA event is changed, and only when an override was given, to the override's low 32 bits |
| Merge.ToEntry | src/writeMerge.cxx:191-214 | exactly the four known info types are written; any other type is an unknown-type error; the keys written are LPA keys for LPA, LCI keys otherwise |
| Merge.HeaderFile | src/LSEWriter.cxx:16-35 | a new output file is positioned at its end |
| Merge.NewOutput | src/writeMerge.cxx:170-187 | a new output is named from the startedAt and sequence of the event that opens it, holds no records, and its file is exactly the header for the downlink id, with the cursor at its end |
| Merge.Commit | src/writeMerge.cxx:221-229 | committing an event keeps the merge state well formed; the next threshold follows the corrected rule `NextMax` |
| Merge.Put | src/writeMerge.cxx:196-205 | writing an event to an output adds exactly that record to its list |
| Merge.Apply | src/writeMerge.cxx:170-229 | handling one fetched event keeps the merge state well formed |
| Merge.Event | src/writeMerge.cxx:142-229 | handling one index entry keeps the merge state well formed |
| Merge.Step | src/writeMerge.cxx:136-229 | handling one index line keeps the merge state well formed |
| Merge.Run | src/writeMerge.cxx:136-230 | the main loop keeps the merge state well formed |
| Merge.Start | src/writeMerge.cxx:81-86 | before the first line there are no outputs, the threshold is `maxEvents`, the counter is 0, and the invariant holds |
| Merge.Files | src/writeMerge.cxx:224 | one file per output, with the output's name and contents, in order |
| Merge.FilesSnoc | src/writeMerge.cxx:224 | closing one more output adds exactly its file |
| Merge.EventLines | src/writeMerge.cxx:139 | the selected lines are all event lines, and no more than the input |
| Merge.OnlyEventLines | src/writeMerge.cxx:139 | the result of the run depends only on the `EVT:` lines |
| Merge.UnknownTypeAborts | src/writeMerge.cxx:207-213 | an event of unknown info type aborts the merge with that error |
| Merge.ApplyAppends | src/writeMerge.cxx:170-205 | a handled event is appended, after the override, to the open output (or to a new one), and nothing else changes in the outputs |
| Merge.HeaderFileLaid | src/LSEWriter.cxx:16-35 | a new output is the header for the downlink id with no records |
| Merge.PutLaid | src/writeMerge.cxx:196-205 | writing a record keeps an output equal to its header followed by its records |
| Merge.FileImageGrows | src/writeMerge.cxx:196-205 | the output's image grows by exactly the record's image |
| Merge.CommitOutputs | src/writeMerge.cxx:221-229 | after an event, the outputs are the closed ones followed by the current one |
| Merge.CommitCounts | src/writeMerge.cxx:221-229 | the event counter and the threshold keep their invariant through an event |
| Merge.AllLaidPrefix | src/writeMerge.cxx:224 | every output in a prefix of the outputs is still laid out correctly |
| Merge.AllLaidSnoc | src/writeMerge.cxx:224 | adding a well-laid output keeps all outputs well laid |
| Merge.CommitKeeps | src/writeMerge.cxx:221-229 | the merge invariant survives committing an event |
| Merge.ApplyKeeps | src/writeMerge.cxx:170-229 | the merge invariant survives handling a fetched event |
| Merge.ApplyCommits | src/writeMerge.cxx:170-229 | a handled event is the rotation step applied to the open (or new) output after its record is written with the override |
| Merge.StepKeeps | src/writeMerge.cxx:136-229 | the merge invariant survives every index line |
| Merge.RunKeeps | src/writeMerge.cxx:136-230 | the merge invariant holds after any successful run |
| Merge.InvOutputs | src/writeMerge.cxx:221-229 | under the invariant every output is header plus records; without a positive maximum there is at most one output; with one, every output holds 1 to `maxEvents` records |
| Merge.MergeOutputs | src/writeMerge.cxx:136-236 | after a successful merge every output file is its header followed by exactly its records; without a positive maximum at most one file is written; with one, every file holds between 1 and `maxEvents` events |
| Merge.MergeSpec | src/writeMerge.cxx:136-236 | the merge fails exactly when a line fails; on success every file begins with the header for the downlink id, and without a positive maximum there is at most one file |
| Merge.FilesStartWithHeader | src/LSEWriter.cxx:16-35 | every file of well-laid outputs begins with the header for the run id |
| Merge.RunStops | src/writeMerge.cxx:136-218 | the first failing line ends the run: later lines do not matter |
| Merge.OpenCached | src/writeMerge.cxx:144-153 | a reader is opened once per chunk file and kept in the map; it fails exactly when the file is missing or its header is bad |
| Merge.ReadFrom | src/writeMerge.cxx:156-159 | seek then keyed read on a cached reader gives `ReadAt` of the file |
| Merge.FetchRecord | src/writeMerge.cxx:144-167 | the reader lookup, seek and read give `Fetch`; the reader map only grows by the new reader |
| Merge.WriteRecord | src/writeMerge.cxx:189-214 | an unknown info type throws without writing; a known one is the keyed write of its entry |
| Merge.OpenWriter | src/writeMerge.cxx:169-187 | with no open writer a new one is made with the template name and the header; an open one is kept |
| Merge.Rotate | src/writeMerge.cxx:220-229 | a full output is closed, the counter resets and the threshold follows the corrected rule `NextMax`; otherwise only the counter moves |
| Merge.Emit | src/writeMerge.cxx:169-229 | the writer side of one event matches `Apply`, and the concrete state keeps tracking the specification's state |
| Merge.FetchKeeping | src/writeMerge.cxx:144-167 | as `FetchRecord`, leaving the writer state untouched |
| Merge.EmitKeeping | src/writeMerge.cxx:169-229 | as `Emit`, leaving the reader cache untouched |
| Merge.HandleEvent | src/writeMerge.cxx:142-229 | one index entry: a fetch failure is raised, otherwise the event is handled as `Apply` specifies |
| Merge.Handle | src/writeMerge.cxx:136-229 | one index line is handled exactly as `Step` specifies |
| Merge.RunNext | src/writeMerge.cxx:136 | the run over i + 1 lines is the run over i lines and one more step |
| Merge.RunSnoc | src/writeMerge.cxx:136 | one more line either leaves a failed run as it was or is one more step from the run's state |
| Merge.Advance | src/writeMerge.cxx:136-229 | one loop iteration: a failure is the merge's result; success extends the run by one line |
| Merge.Loop | src/writeMerge.cxx:136-229 | the loop over the index lines ends with the first error `MergeSpec` gives, or with the state the run over all lines reaches, the open writer and the closed files standing for it |
| Merge.Finish | src/writeMerge.cxx:231-236 | closing the last writer yields exactly the specified files |
| Merge.Merge | src/writeMerge.cxx:69-240 | the whole tool's result, the output files or the first error, equals `MergeSpec`, which uses the corrected rotation rule |

## Left out

- The `dump` routines and every `printf`/`std::cout` message. They are output only.
- `LSFReader`, `LSE_Context.cxx`, `LSE_GemTime.cxx`, `LSE_Keys.cxx` and the test programs. These are outside the codec core.
- `facilities::Util::expandEnvVar` on file names. Names are used as given.
- Opening files: the file system is a map from names to byte sequences. `fopen` fails only for a missing file in read mode.
- Disk-full and other I/O errors. Every non-empty `fwrite` succeeds. Return values of `fseeko` and `fclose` are ignored, as the source ignores them.
- Struct padding and in-memory layout. Every `fwrite(this, sizeof …)` and `reinterpret_cast` is replaced by an explicit little-endian field encoding. The LPA info image is the body `LPA_Info::write` produces, not the in-memory `std::vector` header.
- Doubles, such as the UTC times in the context and the scale and floor of `writeMerge`. A UTC time is an opaque 64-bit word. The scale and floor are exact reals, so IEEE rounding is not modelled.
- Exceptions: a thrown `runtime_error` is an error value. Out-parameters that the source has partly assigned before throwing are not modelled.
- Reader.ReadCommon: an EBF length above 128 KiB is reported as `BufferOverflow`. The source would overrun the buffer.
- Reader.ReadBlock: an info or keys block longer than 128 KiB is reported as `BufferOverflow`. The source would overrun its stack buffer.
- Ebf.EbfData.Init: requires that the payload and the 8 framing bytes fit the buffer. The source copies without checking.
- Ebf.EbfData.constructor: sets `len` to 0. The source leaves it uninitialised.
- Handler.Stage: the masks `Stage_m` and `Gem_Classes_m` and the shift `Gem_Classes_v` are not in the source; they are parameters.
- Handler.GemClasses: same reason as `Handler.Stage`.
- Handler.Default: fills the RSD union with zeros. The source leaves it unset.
- The V1 and V2 gamma RSD structs are not declared in the header. They take the V0 fields, and the union is four words.
- `HandlerIdMin` and `HandlerIdCnt` are used by `handlerName` but not declared. They are 0 and 6.
- LpaFile.LpaFile.Read: requires read mode. Reading a stream opened "wb" is undefined in C.
- LpaFile.LpaFile.Write: requires write mode, for the same reason.
- The header `LSEWriter.h` declares its own run id and statistics fields, with setters, and no `LSEHeader`. `LSEWriter.cxx` keeps an `LSEHeader m_hdr` instead, and the model follows the `.cxx`. Nothing in the core updates the statistics, so a written file's header always has a zero event count and zero sequences.
- The keyed forms `read(…, ktype, pakeys, cikeys)` and `write(ctx, ebf, info, keys)` that `writeMerge` calls have no definition in the shown source. They are modelled as the typed forms followed by a keys block, with the same tag, `size_t` length and body framing.
- `LSE_Info.h` declares `LPA_Info` without `lpaDbKey` and without the handler vector that `LSE_Info.cxx` reads and writes. The model follows the `.cxx`.
- EvtIndex.Parse: a field that is not all digits, or that overflows its C type, rejects the whole line. `operator>>` would read a digit prefix and leave the later members unspecified.
- The fields of the index line that the constructor skips (elapsed, livetime, UTCs, scid, dgmevt) are not modelled.
- Parsing the command line and environment (`argc`, `atoi`, `atof`, `strtoul`, `getenv`). `Merge.Config` holds the converted values.
- The missing-arguments exit and the failure to open the index file. The index is a sequence of lines.
- The `snprintf` output-name template and its 512-byte limit. The name is the parameter `nameOf`.
- Merge.Merge: when an error stops the run, the files already written stay on disk in the source. The model's result is only the error.
- Deleting the cached readers at exit (`cleanup`), and the `delete` of writers beyond their close.
- The `downlinkID` from `atoi` is taken as an unsigned 32-bit run id. Negative input is not modelled.
- The rotation rule sets the threshold back to `maxEvents` when it falls to the floor. The model does this as the code does.
- Merge.Commit: the next threshold is the corrected `NextMax`, not the truncation at src/writeMerge.cxx:228 as written. With `maxEvents` = 1, the default scale 0.90 and floor 0.50, and three event lines, the source writes two files (one event, then two) and the model writes three one-event files. `NextMaxAsWritten` and `NextMaxAsWrittenStalls` model the rule as written.
- Merge.Rotate: same as `Merge.Commit`. The writer-side step uses `NextMax`.
- Merge.Merge: its result is `MergeSpec`, which is built on `Commit`. For the input under `Merge.Commit`, it lists three files where the source leaves two.
- Reader.LseReader.ReadHeader: uses the corrected `ReadStats`, not the read at src/LSEReader.cxx:63-70 as written. Statistics come from the writer's offsets, the cursor ends at byte 104 instead of 32, and fewer than 100 bytes after the marker fail with `ShortRead`. The source's unchecked freads accept them. `ReadStatsAsWritten` models the read as written.
- Reader.LseReader.Open: built on `ReadHeader`. A file holding only the 4-byte marker fails to open, where the source opens it. After opening a written file, the first sequential read starts at byte 104, where the source starts at byte 32.
- Reader.AssignInfo: a body whose length does not match the image of the tag's info fails with `SizeMismatch`. The source reinterprets the buffer without a check, so an LCI_ACD block of `AcdSize` + 4 bytes assigns `ainfo` from its first bytes, and a short one reads stale buffer contents. In the model the read fails, so the merge stops.
- Reader.AssignKeys: same as `Reader.AssignInfo`, for the keys block.
- Info.EmptyLpa: the scalar members are zero. `LPA_Info() {}` leaves them uninitialised.
- Merge.Files: outputs that get the same name are listed separately. In the source, the later `fopen(name, "wb")` (src/LSEWriter.cxx:26) truncates the earlier file, so only the later file remains on disk. This happens with a `nameOf` that ignores its arguments, or with two files whose first events share startedAt and sequence. An output named like an input chunk would also overwrite that chunk, while the model keeps `fs` unchanged.
- Typed files: the whole-file round trip `Session.FileRoundTrip` covers files of keyed records only. Typed records have single-record lemmas (`Reader.ReadTypedImage`, `Writer.WriteTypedAppends`).

## Findings

| source | as written | input that shows it | evidently intended | confidence | as-written member | corrected member |
|---|---|---|---|---|---|---|
| src/LSEReader.cxx:65-70 | after the marker, the reader reads the run id and then three 8-byte words as event count, first and last GEM sequence; the header written by `LSEHeader::write` (eventFile/LSEHeader.h:26-35) has `m_secs_beg` and `m_secs_end` between the run id and the event count | a header with `secs_beg` = 1 and every other field 0 reads back an event count of 1 | skip the two seconds words and read the event count and the two GEM sequences where the writer put them | high; not executed | Reader.ReadStatsAsWritten, shown by Reader.ReadStatsAsWrittenMisreads | Reader.ReadStats, proved by Reader.ReadStatsOnHeader |
| src/writeMerge.cxx:228 | above the floor, the next threshold is `(int)(scale * currMax)`, which can truncate to 0; line 221 rotates only while `currMax > 0` | `maxEvents` = 1 with the default scale 0.90 and floor 0.50: after the first file the threshold becomes 0, and every later event goes into the second file | the threshold stays at 1 or more, so files keep rotating | medium; not executed | Merge.NextMaxAsWritten, shown by Merge.NextMaxAsWrittenStalls | Merge.NextMax, proved by Merge.NextMaxClamps and Merge.NextMaxInRange |
