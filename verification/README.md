# A Dafny model of RDB-libs

RDB-libs is a C++ library for audio and other buffers that carries the single-file libraries dr_wav and
dr_mp3 and the library AudioFile. This project models the parts of it in which state, formats and
arithmetic meet, and proves what they promise for all inputs and all runs:

* **dr_wav: writing and reading WAV files.** A writer that emits RIFF, Wave64 or RF64, any list of metadata and
  any number of data writes, and patches its size fields at the end; a reader that walks chunks in any order,
  counts metadata in a first pass and fills it in in a second; when those walks end; the memory of the second
  pass. Files: `WavFormat`, `WavMetadata`, `BroadcastWave`, `WavWriter` (writing); `WavStream`, `Walks`, `WavScan`,
  `WavMetadataParser`, `WavMetadataReader`, `WavReader` (reading); `WavRoundTrip`, `WavSession` (both together);
  `BumpAllocator`, `MetadataMemory` (memory); `WavPasses` (the two passes side by side); `WavLayout`, `WavItems`,
  `WavFrames` (names, fields and counts as literals and numbers).
* **dr_wav: ADPCM.** The resumable IMA and Microsoft ADPCM readers against per-block references, however the reads
  are split, and the frame count of the opened file against what the blocks hold. Files: `PcmFrames`, `ImaAdpcm`,
  `MsAdpcm`, `WavAdpcm`, and `ImaAdpcmSamples`, `MsAdpcmSamples` (how each sample follows from the ones before).
* **dr_mp3: from bits to seeking.** The byte-wise and the cached bit reader, frame headers, Layer III side info
  (ISO/IEC 11172-3, section 2.4.1.7, and ISO/IEC 13818-3), the bit reservoir (section 2.4.2.7 of ISO/IEC 11172-3),
  the reordering of short blocks, finding and decoding frames in a buffer, the buffer that is refilled from a
  stream, reading PCM frames, and seeking by brute force and through a table. Files: `BitStream`, `Mp3Header`,
  `SideInfo`, `Reservoir`, `Reorder`, `Mp3Decoder`, `Mp3CountExample`, `Mp3Source`, `Mp3Stream`; `Mp3HeaderBits`,
  `SideInfoFields` (headers and side info from the standard's fields), `Mp3SilentFrames`, `Mp3Sync` (which frame is
  decoded, and what is reported).
* **AudioFile.** Its own WAV writer and reader, and the 80-bit sample rate of AIFF, which dr_wav decodes as well.
  Files: `AudioFileWav`, `AudioFileFields`, `SampleRate80`.
* **CVRingBuffer.** The wrapping FIFO with its overwrite mode, call by call and over runs. Files: `RingBuffer`,
  `RingBufferRuns`.

`Bytes`, `ByteImages` and `Arith` hold integers of the C sources' widths, stretches of bytes in a file image, and
the few facts of arithmetic that are needed everywhere.

## How it is built

What the source changes step by step is a class with the source's fields, methods and loops (`WavWriter`,
`WavReader`, `MetadataParser`, `ImaReader`, `MsReader`, `BitReader`, `BitCache`, `Decoder`, `Mp3`, `AudioFile`,
`VRingBuffer`, `Memory`). Each of its methods is proved equal to a function of the old state and the input. What
the source promises is then proved about those functions: round trips, refinements between independent
descriptions, and invariants over runs of any length. Readers are specified on any bytes, not only on bytes that
the writers produce.

A round trip does not notice a field that writer and reader both take from the wrong place, nor does a refinement
notice a wrong table on both sides. So what tables, names, sizes and fields have to be is stated again without the
functions that compute them: as literals, and as numbers of the bytes at a place (`Bytes.Number`), in the files that
end in `Layout`, `Items`, `Frames`, `Samples`, `Bits`, `Fields` and `Sync`.

A buffer that the caller passes is an array where the source works on it in place (`RingBuffer`, `Reorder`, the
ADPCM channel state, the reservoir), and otherwise the sequence that is handed out; a null buffer is a flag. Streams
are byte sequences with a position. Unsigned wrap-around and truncating casts are written out where they can be
reached. Most proofs start by hiding all definitions; lemmas named after a definition (`...Is`, `...Step`) then bring
back one equation at a time, which keeps every proof small.

## Where the code does not do what it is meant to

Each of these is stated with its exact condition in the table below.

* A Wave64 file is meant to be padded to a multiple of eight bytes; the padding is the size modulo eight, so it is
  only when the audio size is a multiple of four (`WavFormat.W64Alignment`).
* Opening a file does not return when a seek past the rest of a fmt chunk leads back to where the reader has been;
  there are such files of 38 bytes (`WavScan.HangsIff`, `WavScan.LoopingFmtHangs`, `WavScan.LoopingFileHangs`).
* The same holds of the second pass and a list with a chunk of nearly 2^32 bytes (`WavPasses.LoopingListHangs`,
  `WavPasses.LoopingListFileHangs`). `WavPasses.SmallChunksEnd` says on which files opening returns.
* Behind a fmt chunk that gives itself less than 16 bytes, the two passes over the chunks part, and more items can be
  filled in than were counted and have memory (`WavPasses.ShortFmtParts`, `WavPasses.ShortFmtFillsMore`).
* An RF64 file with metadata can be opened with them only if it has at least 2^32 - 1 bytes of audio
  (`WavRoundTrip.Rf64WithMetadata`).
* The 64-bit size field of RF64 is clamped to 32 bits all the same (`WavFormat.RiffFieldIsFileSize`).
* An odd RIFF data chunk of 2^32 - 1 or more bytes is read back with its padding byte, and a RIFF file with items
  and 2^32 - 1 or 2^32 bytes of audio, opened with metadata, has a data size of 0; beyond, and for RF64 beyond 2^32,
  the passes take audio data for chunks (`WavRoundTrip.DataSizeIff`, `WavRoundTrip.OpenedWithMetadata`).
* The fields of a written fmt chunk no longer describe the format once a frame has 2^19 bits or a second 2^32
  (`WavFormat.FmtDescribes`).
* Empty labels, notes and texts are counted in the size of their list but not written
  (`WavMetadata.ListSizeIsBody`), and a smpl chunk with 24 or more bytes of sampler-specific data is not read back
  (`WavMetadataParser.SmplBack`). A bext item loses what does not fit its fields, and the part of its coding history
  from the first NUL on (`BroadcastWave.BextBackIff`).
* The memory for metadata is one byte short for a bext chunk with three texts and a coding history
  (`MetadataMemory.TakenIff`), and a smpl chunk of 36 bytes with a loop count is filled in without having been counted
  (`MetadataMemory.FilledIsCountedIff`).
* A cue chunk of four bytes yields an item that claims points it does not have (`WavItems.CueItem`), and a smpl chunk
  that ends with the file is kept although its sampler-specific data say that they are longer (`WavItems.SmplItem`).
* The first granules take their scfsi flags from the private bits (`SideInfo.FirstGranuleScfsi`).
* Counting MP3 frames can count frames that do not decode (`Mp3Decoder.CountIsRightIff`,
  `Mp3CountExample.TwoCountedOneDecoded`).
* A seek through a table arrives too late in a stream whose frames reach back: the two MP3 frames that a point says to
  discard are counted without those that do not find their main data (`Mp3Source.DiscardsTwoIff`,
  `Mp3Stream.Mp3.SeekToPoint`).
* The branch of the decoding loop that grows the buffer when no bytes were consumed cannot be reached
  (`Mp3Decoder.ConsumesSome`).
* A sample rate of 1 is decoded as 0 (`SampleRate80.RoundTrip`), a value below 1 as the largest of its sign, one from
  2^63 on with the sign turned, and a small one with a large exponent as the largest (`SampleRate80.TruncatedIff`).
* Loading a file without iXML into an object that has some keeps the old text (`AudioFileWav.XmlSaveLoad`), and a
  refused file still changes rate and depth (`AudioFileWav.AudioFile.DecodeWaveFile`).
* A full ring buffer looks empty to a read, and one of two or more entries loses all of them when one is deleted
  (`RingBuffer.EraseDropsOldestIff`, `RingBufferRuns.BufferIsQueueIff`).

## Model

| member | source | states |
|---|---|---|
| WavSession.WriteThenRead | Libs/dr-libs/dr_wav.h:5533-5606 | Main result, writer to reader: for any data format, any list of metadata that survives by WavMetadataParser.TopBack and any sequence of raw writes, `drwav_init_write_with_metadata`, `drwav_write_raw`* and `drwav_uninit` leave a memory image that opens again exactly when its rate, channels and bits are in bounds (for A-law and mu-law: a byte a sample) and, in RF64 with metadata asked for, it has no items or is as long as its data chunk's header says. The fmt fields that are read describe the format that was asked for, in numbers (WavFormat.Describes); the reader's data position is the `dataChunkDataPos` that the writer counted; n whole frames that were written are n frames that are counted; and with metadata asked for RIFF and RF64 give back all items. The data size that is found is stated for every case; the audio data are those that were written, cut off or padded to that size. |
| WavRoundTrip.RoundTrip | Libs/dr-libs/dr_wav.h:3226-3578 | A finished RIFF or RF64 file opened without metadata is accepted exactly when its fmt fields are supported, with those fields, with the data chunk found behind any metadata, and with the frame count of the data size; a clamped RIFF size stands for all that is left of the file. |
| WavRoundTrip.MetadataRoundTrip | Libs/dr-libs/dr_wav.h:3615-3661 | A RIFF file with up to 2^32 bytes of audio, opened with metadata, gives back the same items in the order top level, INFO, adtl, each group in its own order; `metadataCount` of the first pass is the number of items of the second. From 2^32 - 1 bytes on a file with items opens with a data size of 0, since the second pass leaves nothing to measure. |
| WavRoundTrip.OpenedWithMetadata | Libs/dr-libs/dr_wav.h:3226-3661 | RIFF and RF64 of any size, opened with metadata, by how far the data chunk reaches by its header: beyond the image, the file opens exactly when it has no items; to its end, all items come back; not so far, the passes go on inside the audio data, and the result is that of the walk from there. |
| WavRoundTrip.RegroupedIsPermutation | Libs/dr-libs/dr_wav.h:3952-4314 | The regrouped list is a permutation of the list that was written: no item is lost, doubled or invented. |
| WavItems.RegroupedIsSorted | Libs/dr-libs/dr_wav.h:3952-4314 | And it is sorted by place, chunks of their own, INFO texts, adtl items, with the order inside each of the three kept. |
| WavRoundTrip.PiecesBack | Libs/dr-libs/dr_wav.h:3555-3648 | Both passes walk any number of written chunks, wherever they start in an image: the first adds the number of their items, the second adds the items, and both arrive right behind them. |
| WavRoundTrip.ChunksBack | Libs/dr-libs/dr_wav.h:3226-3578 | In a finished RIFF or RF64 file both passes arrive at the data chunk with the fmt fields that were written, the count of the metadata items and those items regrouped. |
| WavRoundTrip.DataReadBack | Libs/dr-libs/dr_wav.h:4326-4333 | The audio lies where the reader says it does. |
| WavRoundTrip.DataSizeIff | Libs/dr-libs/dr_wav.h:3341-3365 | When the data size of an opened file, with or without metadata asked for, is the number of bytes that were written. RF64: always. RIFF without metadata: if and only if there are less than 2^32 - 1 bytes or an even number. RIFF with metadata: if and only if there are less than 2^32 - 1 bytes, or 2^32 and no items; beyond, if and only if the walk on inside the audio data ends without items at a data chunk of size 2^32 - 1 that lies that far from the end. |
| WavRoundTrip.Rf64WithMetadata | Libs/dr-libs/dr_wav.h:3341-3365 | Found while proving the round trip: an RF64 file opened with metadata, whose data chunk says 2^32 - 1 bytes. With its padding shorter than 2^32 bytes it is accepted if and only if it has no items (and the format is supported); with 2^32 bytes it opens with all of them; beyond, the result is that of the walk from 2^32 bytes behind the start of the audio. |
| WavRoundTrip.W64RoundTrip | Libs/dr-libs/dr_wav.h:5578-5589 | A finished Wave64 file opens with the same fmt fields, data position, data size and data, with or without metadata asked for. |
| WavRoundTrip.LeadBack | Libs/dr-libs/dr_wav.h:3034-3180 | The identification of a finished RIFF or RF64 file is recognised; for RF64 the 64-bit data size comes out of the ds64 chunk. |
| WavFormat.RiffFieldIsFileSize | Libs/dr-libs/dr_wav.h:4316-4362 | The size field of a finished file is its length (less eight for RIFF and RF64) if and only if that fits in 32 bits; for Wave64 always. |
| WavFormat.W64Alignment | Libs/dr-libs/dr_wav.h:1913-1916 | A Wave64 file is meant to be padded to a multiple of eight. It is if and only if the number of audio bytes is a multiple of four. |
| WavFormat.EvenLength | Libs/dr-libs/dr_wav.h:5546-5606 | A finished RIFF or RF64 file has even length whenever its metadata does (which WavMetadata.WrittenEven proves it does). |
| WavFormat.TargetIsFileSize | Libs/dr-libs/dr_wav.h:4561-4580 | What `drwav_target_write_size_bytes` predicts for a number of frames is the length of the finished file if and only if the file is Wave64 or below the 32-bit clamp. |
| WavFormat.FinishedLength | Libs/dr-libs/dr_wav.h:4405-4518 | Length of a finished file, for each container: the head, the audio and its padding. |
| WavFormat.AudioBytesAre | Libs/dr-libs/dr_wav.h:4561-4565 | The bytes of so many frames are the whole bytes in frames * channels * bits. |
| WavWriter.WavWriter.InitWrite | Libs/dr-libs/dr_wav.h:4364-4518 | Initialisation succeeds exactly for the formats other than 2, 0x11 and 0xFFFE in RIFF, Wave64 and RF64; afterwards the fmt fields describe the format that was asked for, in numbers, the output is the head with the initial sizes, and `dataChunkDataPos` is its length. |
| WavFormat.FmtDescribes | Libs/dr-libs/dr_wav.h:4392-4398 | Tag, channels and bits come out if and only if they fit 16 bits, the rate always; the block is the whole bytes of channels * bits if and only if that is below 2^19, and the bytes a second those of channels * bits * rate if and only if that is below 2^32. When all fit and a frame is whole bytes, 8 * block is channels * bits, and the bytes a second are rate * block. |
| WavLayout.FinishedLayout | Libs/dr-libs/dr_wav.h:4435-4518 | A finished file of each container byte for byte, in literals and numbers: names, both sizes, the sixteen bytes of the format, metadata, data header, audio, and zeros up to the padded size. |
| WavLayout.FirstHeadLayout | Libs/dr-libs/dr_wav.h:4435-4518 | The same for the head that initialisation leaves, with the sizes of a file without audio. |
| WavWriter.WavWriter.WriteHead | Libs/dr-libs/dr_wav.h:4435-4515 | The running position that the writer adds up, piece by piece, is the number of bytes written: the whole head of the chosen container, metadata included. |
| WavWriter.PatchedTwice | Libs/dr-libs/dr_wav.h:5381-5419 | Two writes to memory, one behind the other, are one write of both, over what is there or at its end. |
| WavWriter.WavWriter.WriteRaw | Libs/dr-libs/dr_wav.h:5979-5991 | Appends to the audio, to the output and to `dataChunkDataSize` at once. |
| WavWriter.WavWriter.WriteAll | Libs/dr-libs/dr_wav.h:5979-5991 | Any sequence of writes is one write of their concatenation. |
| WavWriter.WavWriter.PatchSize | Libs/dr-libs/dr_wav.h:5565-5605 | Seeking back and overwriting a size field changes that field and no other byte. |
| WavWriter.WavWriter.Uninit | Libs/dr-libs/dr_wav.h:5533-5606 | Whatever was written before, finalising pads the audio and patches the sizes so that the output is the finished file: the specification `Finished`, which the round trips are about. |
| WavReader.WavReader.ReadChunkHeader | Libs/dr-libs/dr_wav.h:1922-1958 | Reads a RIFF or Wave64 chunk header: id, size, padding and where the body is; at a short read the cursor ends at the end of the image. |
| WavLayout.HeaderRead | Libs/dr-libs/dr_wav.h:1922-1958 | The header as numbers of its bytes: size and padding to even, or in Wave64 the size less 24 and its remainder by eight. |
| WavLayout.ChunkIds | Libs/dr-libs/dr_wav.h:1501-1506 | The names of the fmt, data and fact chunks in each container, as literals. |
| WavReader.WavReader.ReadFmtChunk | Libs/dr-libs/dr_wav.h:3258-3340 | The body of a fmt chunk, with its extension, for any size and any bytes: what is refused, where the position ends (the seek past the rest goes by an int, forward or back), and how far the cursor gets away from it. |
| WavLayout.ExtensionRead | Libs/dr-libs/dr_wav.h:3262-3328 | For sizes below 2^31: which extensions are accepted (22 bytes or none when the tag is 0xFFFE), and valid bits, channel mask, sub-format and every other field as numbers of the bytes at their places. |
| WavLayout.LongSeek | Libs/dr-libs/dr_wav.h:3323-3327 | Where the seek past 2^31 or more bytes leads: back by what they lack to 2^32, with the cursor 2^32 ahead of it. |
| WavReader.WavReader.ReadStart | Libs/dr-libs/dr_wav.h:3034-3180 | What precedes the chunks of RIFF, Wave64 and RF64, for any bytes: which files are recognised, and where the first chunk is. |
| WavLayout.LeadIff | Libs/dr-libs/dr_wav.h:3034-3180 | Which files are recognised as RIFF, Wave64 and RF64, by literal bytes and lengths, where their first chunk is, and the two sizes that RF64 brings along. |
| WavReader.WavReader.TakeChunk | Libs/dr-libs/dr_wav.h:3252-3575 | One turn of the chunk loop, for any chunk in any state: fmt, data, fact, metadata and everything else, with the casts and the wrap-around of sums that decide where the next chunk is. |
| WavLayout.AheadTurns | Libs/dr-libs/dr_wav.h:3341-3364 | What a cursor that is ahead means: where the data are then said to be, and where the next chunk is looked for. |
| WavLayout.FactRead | Libs/dr-libs/dr_wav.h:3366-3402 | A fact chunk: how many bytes of it are needed in each container, and that only Wave64 takes a sample count from it. |
| WavLayout.DataSizeOf | Libs/dr-libs/dr_wav.h:3651-3671 | The data size is the one in the chunk's header, but for 2^32 - 1 in RIFF, which means all that is left, or nothing behind a second pass. |
| WavReader.WavReader.ScanChunks | Libs/dr-libs/dr_wav.h:3226-3578 | The chunk loop, over chunks in any order, finds what the recursive description of the image says, on every image on which it ends (WavScan.ScanHangsIff). |
| WavReader.WavReader.FillMetadata | Libs/dr-libs/dr_wav.h:3615-3648 | The second pass finds the items that the description of the image says, on every image on which it ends (WavScan.FillHangsIff), and keeps the count of the first pass. |
| WavReader.WavReader.Initialise | Libs/dr-libs/dr_wav.h:3007-3740 | `drwav_init__internal` on any memory image on which it returns (WavScan.HangsIff), with and without metadata: accepts what the specification `Init` accepts, finds the same fields and the same totalPCMFrameCount (WavFrames.FramesOfFile says what it is), and leaves the position on the audio data. |
| WavFrames.FramesOfFile | Libs/dr-libs/dr_wav.h:3679-3740 | For any file that opens and is no ADPCM: the count is that of whole frames in the data, count * channels * bits <= 8 * size < (count + 1) * channels * bits when bits is a multiple of 8, else the same with the block; unless RF64 or a fact chunk of Wave64 gives a number of samples, which is then the count. |
| WavFrames.OpeningIff | Libs/dr-libs/dr_wav.h:2950-2971 | Which formats open once written, by rate, channels and bits alone: 1 to 384000 Hz, 1 to 256 channels, 1 to 64 bits, at least a byte a frame; and for A-law and mu-law bits >= 8 and channels * (bits - 8) < 8. |
| WavFrames.AdpcmCount | Libs/dr-libs/dr_wav.h:3698-3728 | The count of an ADPCM file: two frames for each byte and channel behind the headers of its blocks, and in IMA one more for each header. |
| WavFrames.BlocksCover | Libs/dr-libs/dr_wav.h:3700-3709 | The blocks that are counted cover the data, and one less would not. |
| WavFrames.FramesBack | Libs/dr-libs/dr_wav.h:3679-3698 | n whole frames are counted as n. |
| WavScan.HangsIff | Libs/dr-libs/dr_wav.h:3226-3648 | When opening a file does not return: if and only if the chunk loop gets twice to one position with one cursor, or, once the chunks are found and there are metadata, the second pass gets twice to one position. |
| WavScan.ScanHangsIff | Libs/dr-libs/dr_wav.h:3226-3578 | The chunk loop goes on for ever if and only if it returns to a position with the same distance of its cursor from it, whatever it has found so far. |
| WavScan.FillHangsIff | Libs/dr-libs/dr_wav.h:3615-3648 | The same for the second pass, by its position. |
| WavScan.SmallFmtsEnd | Libs/dr-libs/dr_wav.h:3320-3328 | The chunk loop ends on every image in which no fmt chunk says that it has 2^31 bytes or more. |
| WavScan.LoopingFmtHangs | Libs/dr-libs/dr_wav.h:3320-3328 | A fmt chunk of 2^32 - 8 bytes, in Wave64 one with the size field 0, is read for ever: the seek past its rest leads back to its own header, whatever its format says and whatever follows. |
| WavScan.LoopingFileHangs | Libs/dr-libs/dr_wav.h:3320-3328 | The 38 bytes RIFF, any size, WAVE, fmt with the size F8 FF FF FF, any sixteen bytes and two zeros: opening them does not return, with or without metadata asked for. |
| WavScan.FactPassed | Libs/dr-libs/dr_wav.h:3368-3400 | A fact chunk is passed if and only if, padding included, it has the bytes that are read of it and the image reaches that far; a shorter one ends the loop. |
| Walks.EndsIff | Libs/dr-libs/dr_wav.h:3226-3648 | A deterministic walk over finitely many places ends if and only if it never comes back to one: what the loops over seeks are measured by. |
| WavStream.MemoryStream.Read | Libs/dr-libs/dr_wav.h:5331-5350 | A read delivers the bytes there are, and moves past them. |
| WavStream.MemoryStream.SeekBy | Libs/dr-libs/dr_wav.h:5352-5379 | A seek is refused, and changes nothing, exactly when it would leave the image on either side. |
| WavStream.MemoryStream.SeekForward | Libs/dr-libs/dr_wav.h:1960-1978 | Seeking by a 64-bit offset in steps that fit an int arrives where one seek would, or fails when that is outside the image. |
| WavStream.MemoryStream.SeekFromStart | Libs/dr-libs/dr_wav.h:1980-2007 | The same from the start. |
| WavMetadata.WriteOrCountMetadata | Libs/dr-libs/dr_wav.h:3952-4314 | Counting and writing agree: for any list of items the number of bytes is the same in both modes, and what is written is `Written`, the three groups with their list headers. |
| WavMetadata.WriteList | Libs/dr-libs/dr_wav.h:4115-4309 | A list with the size summed up beforehand, its kind and the chunks of its items, for the INFO and the adtl list, in both modes. |
| WavMetadata.SumList | Libs/dr-libs/dr_wav.h:4116-4131 | The size that is summed up for the head of a list, item by item with the padding of each. |
| WavMetadata.WriteTopItem | Libs/dr-libs/dr_wav.h:3963-4113 | An item with a chunk of its own is written padded to even length, bext field by field with its texts clipped and its reserved bytes zeroed; items of the lists are left alone. |
| WavMetadata.PutBext | Libs/dr-libs/dr_wav.h:4059-4095 | The fields of a bext item, one after the other, are `BextBytes`, in both modes. |
| BroadcastWave.BextBack | Libs/dr-libs/dr_wav.h:2484-2543 | What is left of a bext item after writing and reading: each text clipped to its field, the coding history cut at its first NUL and its size measured anew, everything else the same. |
| BroadcastWave.BextBackIff | Libs/dr-libs/dr_wav.h:2335-2344 | The same bext item comes back if and only if its texts fit into their 256 and 32 bytes and its coding history has no NUL. |
| BroadcastWave.StrlenClamped | Libs/dr-libs/dr_wav.h:2335-2344 | The loop finds the part before the first NUL, or all of the field. |
| WavMetadata.WriteInfoItem | Libs/dr-libs/dr_wav.h:4137-4179 | A text item, or an unknown one inside the INFO list, is written padded; an empty one is not written at all. |
| WavItems.InfoWritten | Libs/dr-libs/dr_wav.h:4137-4179 | What is written for a text: its literal name, the length with the zero, the text, the zero, and another to make it even. |
| WavMetadata.WriteAdtlItem | Libs/dr-libs/dr_wav.h:4231-4308 | A label, note, region or unknown item of the adtl list is written padded; an empty label or note is not written at all. |
| WavMetadata.WrittenEven | Libs/dr-libs/dr_wav.h:3952-4314 | The metadata of any list of items take an even number of bytes. |
| WavMetadata.ShareIsWritten | Libs/dr-libs/dr_wav.h:4115-4309 | What an item adds to the size of its list is what is written for it if and only if it is not one of the empty ones that are dropped; it is never less. |
| WavMetadata.ListSizeIsBody | Libs/dr-libs/dr_wav.h:4115-4309 | The size field of a list is the length of its body if and only if no item in it is dropped; otherwise it is too large. |
| WavMetadataParser.WrittenIsPieces | Libs/dr-libs/dr_wav.h:2690-2947 | What is written for any list of items that survive is a sequence of chunks, each of which both passes of the parser read in full, at any position of any image; together they hold the items, regrouped. |
| WavMetadataParser.ListBack | Libs/dr-libs/dr_wav.h:2830-2941 | A written INFO or adtl list, wherever it lies, is read back item by item in the second pass, and counted as many in the first. |
| WavMetadataParser.SubBack | Libs/dr-libs/dr_wav.h:2546-2683 | A label, note, region, text or unknown item inside a list is the same item after writing and reading. |
| WavMetadataParser.TopBack | Libs/dr-libs/dr_wav.h:2690-2829 | A chunk of its own is the same item after writing and reading, in both passes, if and only if it is not a smpl with 24 or more bytes of sampler-specific data and not a bext with a text that does not fit or a NUL in its coding history. |
| WavMetadataParser.BextChunkBack | Libs/dr-libs/dr_wav.h:2484-2543 | A bext chunk, wherever it lies in an image, is read whole and counted; the item is the one of BroadcastWave.BextBack. |
| WavMetadataParser.SmplBack | Libs/dr-libs/dr_wav.h:2151-2213 | A smpl chunk is read back, and counted, if and only if it has less than 24 bytes of sampler-specific data: with more the loop count derived from the chunk size disagrees with the field. |
| WavMetadataParser.CueBack | Libs/dr-libs/dr_wav.h:2215-2267 | A cue chunk with any number of points is read back whole. |
| WavMetadataParser.StepBack | Libs/dr-libs/dr_wav.h:2832-2940 | One turn of the list loop consumes exactly one written item and its padding, in both passes. |
| WavMetadataReader.MetadataParser.ProcessChunk | Libs/dr-libs/dr_wav.h:2690-2947 | The parser, on any bytes: the items or the count that it adds, the number of bytes that it returns and the position that it leaves are those of the specification; the two differ when the rest of a sub-chunk of 2^31 bytes or more is skipped by a seek that goes back. |
| WavItems.InfoItem | Libs/dr-libs/dr_wav.h:2901-2918 | On literal names: a chunk INAM, IART, ICMT and so on in any list yields the item of its own kind with the text up to its last byte, and is counted as one; cut off by the end of the file it yields none. |
| WavItems.LabelItem | Libs/dr-libs/dr_wav.h:2867-2883 | labl and note on literal names: the cue point from their first four bytes and the text behind, nothing below four bytes. |
| WavItems.RegionItem | Libs/dr-libs/dr_wav.h:2884-2900 | ltxt likewise: every field as the number of the bytes at its place, nothing below twenty bytes. |
| WavItems.OtherItem | Libs/dr-libs/dr_wav.h:2919-2921 | Any other name in a list is kept as it is once the kind of the list is known, under that kind, and passed over before; data, fmt and fact never are. |
| WavItems.InstOrAcidItem | Libs/dr-libs/dr_wav.h:2737-2766 | inst of exactly 7 and acid of exactly 24 bytes are kept; any other size is passed over. |
| WavItems.UnknownItem | Libs/dr-libs/dr_wav.h:2942-2944 | Any other name outside a list is kept as it is; data, fmt and fact are not. |
| WavItems.BextItem | Libs/dr-libs/dr_wav.h:2786-2829 | bext: fifteen fields as texts and numbers at their places, nothing below 602 bytes; counted if its three texts are there. |
| WavItems.CueItem | Libs/dr-libs/dr_wav.h:2767-2785 | A cue chunk yields an item if and only if it is all there and as long as its count says, or has four bytes; a chunk of four bytes yields an item that claims points it does not have. |
| WavItems.PointAt | Libs/dr-libs/dr_wav.h:2244-2261 | Cue point k: its six fields as the numbers of the bytes at their places. |
| WavItems.SmplItem | Libs/dr-libs/dr_wav.h:2695-2736 | A smpl chunk is counted if and only if its loop count is the number of whole loops that it has room for; then it is kept if and only if the rest is as long as it says, or shorter and ends with the file; else only a chunk of 36 bytes is kept, without loops. |
| WavItems.LoopAt | Libs/dr-libs/dr_wav.h:2187-2201 | Sample loop k likewise. |
| WavMetadataReader.MetadataParser.ProcessList | Libs/dr-libs/dr_wav.h:2830-2941 | The loop over a list, on any bytes, ends, and adds what the recursive description of the list says. |
| WavMetadataReader.MetadataParser.ListTurn | Libs/dr-libs/dr_wav.h:2832-2940 | One turn: a list kind, or a chunk with its items, its rest skipped by an int, and its padding byte. |
| WavItems.KindChunk | Libs/dr-libs/dr_wav.h:2853-2859 | The four bytes adtl or INFO set the kind of a list from there on. |
| WavItems.ListNames | Libs/dr-libs/dr_wav.h:2830-2830 | A list is LIST or list. |
| WavItems.RestSkipped | Libs/dr-libs/dr_wav.h:2926-2933 | The rest of a chunk counts as read; skipping it goes forward below 2^31 bytes and back from there on, and fails outside the file. |
| WavMetadataReader.MetadataParser.FillSmplChunk | Libs/dr-libs/dr_wav.h:2151-2213 | Reading a smpl chunk: head, loops, sampler-specific data, and the item only if all of the chunk was read. |
| WavMetadataReader.MetadataParser.FillCueChunk | Libs/dr-libs/dr_wav.h:2215-2267 | Reading a cue chunk likewise. |
| WavMetadataReader.MetadataParser.FillBextChunk | Libs/dr-libs/dr_wav.h:2484-2543 | Reading a bext chunk field by field, its coding history after them, and the item only if all of the chunk was read. |
| BumpAllocator.BlocksAreSound | Libs/dr-libs/dr_wav.h:2089-2140 | For any sequence of requests and any address of the memory: every block is aligned as asked, blocks are disjoint and in order, and all lie in what the first pass reserved. |
| BumpAllocator.CursorWithinCosts | Libs/dr-libs/dr_wav.h:2112-2116 | What the requests take, alignment included, is never more than was reserved for them. |
| BumpAllocator.CostIsNeeded | Libs/dr-libs/dr_wav.h:2112-2116 | And no less would do for any address. |
| BumpAllocator.AlignUpIs | Libs/dr-libs/dr_wav.h:2093-2098 | Aligning the cursor yields a multiple of the alignment and skips less than one alignment. |
| BumpAllocator.Memory.RequestExtra | Libs/dr-libs/dr_wav.h:2112-2116 | Reserves for one more request; the capacity stays the sum of all costs. |
| BumpAllocator.Memory.Alloc | Libs/dr-libs/dr_wav.h:2118-2140 | Takes the memory in one piece, and hands out the array of items first. |
| BumpAllocator.Memory.GetMemory | Libs/dr-libs/dr_wav.h:2089-2110 | Served in the order of the first pass, a request gets its block of `Blocks`, inside the capacity: the source's assertion that it fits cannot fail. |
| MetadataMemory.TakenIff | Libs/dr-libs/dr_wav.h:2787-2816 | Chunk by chunk, for any bytes: the fill pass takes no more memory than the counting pass asked for, if and only if the chunk is not a bext with three texts and something after its fixed part; then it takes one byte more. |
| MetadataMemory.TakenIsRoom | Libs/dr-libs/dr_wav.h:2698-2829 | What is taken for a chunk whose item is kept is what the item refers to: 24 bytes a loop or point, the sampler-specific data, texts with their ends, 64 bytes and the coding history of a bext, or the bytes of an unknown chunk. |
| MetadataMemory.TakenAligned | Libs/dr-libs/dr_wav.h:2184-2240 | Loops and points are aligned to eight bytes, everything else to any. |
| MetadataMemory.TakenInListIsRoom | Libs/dr-libs/dr_wav.h:2546-2683 | The same for the chunks of a list. |
| MetadataMemory.ListAsksFit | Libs/dr-libs/dr_wav.h:2830-2941 | For a whole list: as long as none of its chunks has 2^31 bytes or more, both passes meet the same chunks, and no more is taken than was asked for. |
| MetadataMemory.MemoryIsEnough | Libs/dr-libs/dr_wav.h:2089-2140 | For any number of chunks, any address of the memory and whatever the alignment needs: what is taken fits into what was asked for, up to one byte for each overfull bext. WavPasses.RegularFits has the chunks from the walks over an image. |
| MetadataMemory.OneByteMore | Libs/dr-libs/dr_wav.h:2526-2534 | With one overfull bext and no other metadata the last block ends exactly one byte behind the memory. |
| MetadataMemory.OverfullIff | Libs/dr-libs/dr_wav.h:2787-2816 | A written bext item makes such a chunk if and only if none of its texts and its coding history is empty. |
| MetadataMemory.FilledIsCountedIff | Libs/dr-libs/dr_wav.h:2698-2740 | For a chunk outside any list the fill pass adds no more items than were counted, if and only if it is not a smpl chunk of 36 bytes with a loop count other than 0: that is not counted, but filled in. |
| WavPasses.RegularOpens | Libs/dr-libs/dr_wav.h:3226-3662 | Main result on the two passes over an image: if every chunk met is regular (a fmt chunk of at least 16 and below 2^31 bytes, its extension inside it; a RIFF fact chunk of at least 3 bytes; no chunk of 2^31 bytes in a list), opening with metadata returns, the items are those of the chunks that lie one behind the other, their count is that of the same chunks, and there are no more items than were counted unless there is a smpl chunk of 36 bytes with a loop count. |
| WavPasses.SamePlaces | Libs/dr-libs/dr_wav.h:3226-3648 | On such an image both walks are at the same chunk after as many turns, as far as they get. |
| WavPasses.FirstPass | Libs/dr-libs/dr_wav.h:3226-3578 | The first pass over such an image ends, and counts the items of the chunks one behind the other. |
| WavPasses.SecondPass | Libs/dr-libs/dr_wav.h:3615-3648 | The second pass over it ends, and fills in the items of the same chunks, unless it is refused. |
| WavPasses.AllFit | Libs/dr-libs/dr_wav.h:2690-2947 | For the chunks of such an image, the smpl chunk above apart, no more items are filled in than counted. |
| WavPasses.RegularFits | Libs/dr-libs/dr_wav.h:2089-2140 | Wherever the memory lies and however far the second pass gets, what it has taken fits into what the first pass asked for, but for the byte of each overfull bext. |
| WavPasses.ShortFmtParts | Libs/dr-libs/dr_wav.h:3258-3268 | Where the walks part: behind a fmt chunk of less than 16 bytes the first goes on after the 16 bytes that it reads all the same, the second at the end that the chunk gives. |
| WavPasses.ShortFmtFillsMore | Libs/dr-libs/dr_wav.h:3615-3648 | A file of 52 bytes with a fmt chunk of size 0 that opens with one item counted and two filled in: the format is taken for the header of a chunk. |
| WavPasses.SmallListsEnd | Libs/dr-libs/dr_wav.h:3615-3648 | The second pass ends on every image in whose lists no chunk has 2^31 bytes or more. |
| WavPasses.SmallChunksEnd | Libs/dr-libs/dr_wav.h:3007-3740 | Opening a file, with or without metadata, returns on every image in which besides no fmt chunk has 2^31 bytes or more. |
| WavPasses.LoopingListHangs | Libs/dr-libs/dr_wav.h:2919-2937 | A list of 2^32 - 8 bytes that starts with an unknown chunk of 2^32 - 16 bytes takes the second pass back to its own header, for ever. |
| WavPasses.LoopingListFileHangs | Libs/dr-libs/dr_wav.h:3615-3648 | A file of 68 bytes with such a list, whose first pass ends: opened with metadata, it does not return. |
| ImaAdpcm.DecodeIsRefSample | Libs/dr-libs/dr_wav.h:6292-6448 | Sample `t` of channel `c` of block `k`, at its place in the decoded stream, is plain IMA ADPCM on that channel's own bytes of that block: the independent per-block reference. |
| ImaAdpcm.DecodeBlockIsRefSample | Libs/dr-libs/dr_wav.h:6322-6445 | The same inside one block: frame `t` holds reference sample `t` of every channel. |
| ImaAdpcm.GroupsAreChannels | Libs/dr-libs/dr_wav.h:6399-6442 | Decoding four bytes a channel in turn gives each channel what decoding its bytes alone gives. |
| ImaAdpcm.DiffMagnitude | Libs/dr-libs/dr_wav.h:6413-6420 | The magnitude d of a step, with m the low three bits of the nibble, satisfies 8d <= (2m+1)step <= 8d + 17: the shifts stay within 17/8 of the exact IMA difference. |
| ImaAdpcm.Step | Libs/dr-libs/dr_wav.h:6413-6425 | Predictor in 16 bits and step index in 0..88 after every nibble. |
| ImaAdpcmSamples.NextSample | Libs/dr-libs/dr_wav.h:6386-6445 | Sample t + 1 of a channel is sample t moved by its nibble at the index then, within 16 bits; the index falls by one or rises by 2, 4, 6 or 8, within 0..88. Where the nibble is in the block is stated by byte and half. |
| ImaAdpcmSamples.FirstSample | Libs/dr-libs/dr_wav.h:6322-6363 | Sample 0 and the first index are the bytes of the header at their places. |
| ImaAdpcmSamples.ExactDiff | Libs/dr-libs/dr_wav.h:6413-6420 | Eight times the move is (2m + 1) steps, less exactly what the three shifts drop, with the sign of the nibble. |
| ImaAdpcmSamples.Jumps | Libs/dr-libs/dr_wav.h:6302-6312 | All 89 step sizes, pinned by what one nibble does: the move of a nibble of 4 at each index, as a number. |
| ImaAdpcmSamples.StepSizes | Libs/dr-libs/dr_wav.h:6302-6312 | The step sizes run from 7 to 32767 and grow by about a tenth each. |
| ImaAdpcm.TotalFramesIsDecodeLength | Libs/dr-libs/dr_wav.h:3716-3728 | On whole valid blocks the formula for `totalPCMFrameCount` is the number of frames that decoding produces. |
| ImaAdpcm.ImaReader.LoadHeader | Libs/dr-libs/dr_wav.h:6322-6365 | Reading a block header keeps what is still to be delivered; it fails only when nothing is left or the header is invalid. |
| ImaAdpcm.ImaReader.StoreHeader | Libs/dr-libs/dr_wav.h:6338-6363 | Predictors and step indices from the header, and the first frame in the last slot of the cache. |
| ImaAdpcm.ImaReader.DecodePart | Libs/dr-libs/dr_wav.h:6400-6441 | Four bytes of a channel become eight samples at that channel's places in the cache, low nibble first, all other places untouched. |
| ImaAdpcm.ImaReader.DecodeChannels | Libs/dr-libs/dr_wav.h:6399-6442 | The cache and the channels after a group, and how the bytes that remain in the block and the position move; it fails exactly at the end of the data. |
| ImaAdpcm.ImaReader.LoadGroup | Libs/dr-libs/dr_wav.h:6386-6445 | Decoding the next group keeps what is still to be delivered. |
| ImaAdpcm.ImaReader.Deliver | Libs/dr-libs/dr_wav.h:6367-6381 | Handing out a cached frame delivers the first frame of what was still to come. |
| ImaAdpcm.ImaReader.ReadFrames | Libs/dr-libs/dr_wav.h:6292-6448 | From any state between calls: a call delivers exactly the first frames of what is still to come, as many as were asked for or are left, and the rest is what is then still to come. |
| ImaAdpcm.ImaReader.ReadInPieces | Libs/dr-libs/dr_wav.h:6292-6448 | However the reads are split, the caller gets the same samples as from one read. |
| ImaAdpcm.ImaReader.constructor | Libs/dr-libs/dr_wav.h:3700-3728 | A new reader has the decoding of all blocks to deliver, whatever follows them in the file. |
| MsAdpcm.DecodeIsRefSample | Libs/dr-libs/dr_wav.h:6100-6289 | Sample `t` of channel `c` of block `k`, at its place in the decoded stream, is MS ADPCM on that channel's own nibbles of that block. |
| MsAdpcm.DecodeBlockIsRefSample | Libs/dr-libs/dr_wav.h:6119-6284 | The same inside one block; the first two frames come from the header, the older first. |
| MsAdpcm.BytesAreChannels | Libs/dr-libs/dr_wav.h:6201-6283 | Decoding the nibbles of both channels in turn gives each channel what decoding its nibbles alone gives. |
| MsAdpcm.Step | Libs/dr-libs/dr_wav.h:6219-6229 | After every nibble, with products taken in 32 bits: samples in 16 bits, coefficient index in the table, delta at least 16. MsAdpcmSamples.NextSample says in numbers what they become. |
| MsAdpcmSamples.NextSample | Libs/dr-libs/dr_wav.h:6193-6285 | The law of consecutive samples, for all seven predictors in literal coefficients: with q the whole 256ths of c1 * x[t + 1] + c2 * x[t], sample t + 2 is q + nibble * delta within 16 bits, the nibble as a signed number at its place in the block; and delta becomes its literal multiple in 256ths, but not below 16. As long as 32 bits hold the products. |
| MsAdpcmSamples.FirstSamples | Libs/dr-libs/dr_wav.h:6119-6169 | The first two samples and the first delta are the bytes of the header at their places. |
| MsAdpcmSamples.StraightOn | Libs/dr-libs/dr_wav.h:6219-6229 | With a nibble of 0 predictor 0 repeats a sample, and predictor 1 goes on in a straight line. |
| MsAdpcm.TotalFramesIsDecodeLength | Libs/dr-libs/dr_wav.h:3700-3714 | On whole valid blocks the formula for `totalPCMFrameCount` is the number of frames that decoding produces. |
| MsAdpcm.MsReader.LoadHeader | Libs/dr-libs/dr_wav.h:6119-6169 | Reading a block header keeps what is still to be delivered. |
| MsAdpcm.MsReader.StoreHeader | Libs/dr-libs/dr_wav.h:6129-6167 | A header is taken exactly when its coefficient indices are in the tables; two frames are then cached. |
| MsAdpcm.MsReader.LoadByte | Libs/dr-libs/dr_wav.h:6193-6285 | Decoding the next byte keeps what is still to be delivered, and caches two frames in mono, one in stereo. |
| MsAdpcm.MsReader.ReadFrames | Libs/dr-libs/dr_wav.h:6100-6289 | From any state between calls: exactly the first frames of what is still to come, as many as were asked for or are left. |
| MsAdpcm.MsReader.ReadInPieces | Libs/dr-libs/dr_wav.h:6100-6289 | Reading a and then b frames, or in any other pieces, equals reading them at once. |
| MsAdpcm.MsReader.constructor | Libs/dr-libs/dr_wav.h:3700-3728 | A new reader has the decoding of all blocks to deliver, whatever follows them in the file. |
| WavAdpcm.ImaCount | Libs/dr-libs/dr_wav.h:3716-3728 | For a playable IMA ADPCM file without a fact count, and a data chunk of whole valid blocks, the totalPCMFrameCount of the opened file is the number of frames that its blocks decode to; so a reader stops exactly at the end of the chunk. |
| WavAdpcm.MsCount | Libs/dr-libs/dr_wav.h:3700-3714 | The same for Microsoft ADPCM. |
| BitStream.BitReader.GetBits | Libs/dr-libs/dr_mp3.h:796-810 | For up to 32 bits within the limit the result is the big-endian value of the bits at the position; from the limit on it is 0, and the position moves on all the same. |
| BitStream.ValueConcat | Libs/dr-libs/dr_mp3.h:796-810 | Reading a and then b bits concatenates to reading a + b bits. |
| BitStream.ValueShr | Libs/dr-libs/dr_mp3.h:1313-1313 | The first a of a + b bits are the whole shifted down by b: what a peek of fewer bits means. |
| BitStream.BitCache.constructor | Libs/dr-libs/dr_mp3.h:1319-1324 | Starting at any bit, the cached reader holds the stream's bits from there on, at least 25 of them, and zeros below. |
| BitStream.BitCache.Peek | Libs/dr-libs/dr_mp3.h:1313-1313 | A peek of as many bits as are available is the big-endian value of the stream's bits at DRMP3_BSPOS. |
| BitStream.BitCache.Flush | Libs/dr-libs/dr_mp3.h:1314-1314 | A flush of n available bits moves DRMP3_BSPOS by n and keeps the invariant: the top bits of the cache are the stream's, the rest are zero. |
| BitStream.BitCache.CheckBits | Libs/dr-libs/dr_mp3.h:1315-1315 | Refilling leaves DRMP3_BSPOS where it is and makes at least 25 bits available. |
| BitStream.Flushed | Libs/dr-libs/dr_mp3.h:1314-1314 | The invariant over a shift of the cache word. |
| BitStream.Refilled | Libs/dr-libs/dr_mp3.h:1315-1315 | The invariant over adding a byte below the bits that are held. |
| BitStream.ReadFields | Libs/dr-libs/dr_mp3.h:1313-1324 | Refinement: reading any fields of at most 25 bits through the cache yields, field by field, what the byte-wise reader yields, and both end at the same position. |
| Mp3Header.ComputedUnlessFree | Libs/dr-libs/dr_mp3.h:849-857 | The header gives a frame's size, at least 8 bytes, exactly when it is not free format. |
| Mp3Header.Layer3FrameFits | Libs/dr-libs/dr_mp3.h:849-857 | No Layer III frame with a bitrate is longer than 1440 bytes before padding. |
| Mp3HeaderBits.FieldsBack | Libs/dr-libs/dr_mp3.h:812-862 | For a header written out from any fields by the standard's layout, each test and each field is what was put there. |
| Mp3HeaderBits.ValidIff | Libs/dr-libs/dr_mp3.h:812-819 | Such a header is valid if and only if bitrate and rate are not the last and MPEG-2.5 goes with Layer III. |
| Mp3HeaderBits.ValidHasFields | Libs/dr-libs/dr_mp3.h:812-819 | And every valid header is one of them. |
| Mp3HeaderBits.AlikeIff | Libs/dr-libs/dr_mp3.h:821-827 | Two headers go together if and only if version, layer and rate are the same, both or neither are free format, and the second is valid. |
| Mp3HeaderBits.RateIs | Libs/dr-libs/dr_mp3.h:838-842 | The nine rates in Hz, of MPEG-1, 2 and 2.5, as literals by the header's fields. |
| Mp3HeaderBits.KbpsIs | Libs/dr-libs/dr_mp3.h:829-836 | All bitrates of all layers in kbit/s, as literals. |
| Mp3HeaderBits.SamplesAre | Libs/dr-libs/dr_mp3.h:844-862 | 384, 576 or 1152 samples and a padding of 1 or 4 bytes, by version and layer. |
| Mp3HeaderBits.BytesAre | Libs/dr-libs/dr_mp3.h:849-857 | The bytes of a frame by those literals: 144 or 72 bits a second over the rate in Layer III, rounded down. |
| Mp3HeaderBits.At128Kbps | Libs/dr-libs/dr_mp3.h:849-857 | At 128 kbit/s in MPEG-1 Layer III: 417, 384 and 576 bytes at 44.1, 48 and 32 kHz. |
| SideInfo.ReadSideInfo | Libs/dr-libs/dr_mp3.h:1032-1155 | Every field of every granule is the one at its own bit offset of the Layer III layout, with its own scfsi flags; the side info is refused exactly for too many big values, a switched window of type 0, or more main data than there can be; otherwise exactly 17, 32, 9 or 17 bytes are consumed. |
| SideInfo.ReadGranule | Libs/dr-libs/dr_mp3.h:1080-1147 | One granule: refused, or all fields at their offsets and exactly 59 or 63 bits consumed. |
| SideInfoFields.SideInfoBack | Libs/dr-libs/dr_mp3.h:1032-1155 | A side info laid out by the standard's syntax, for any fields: every field of every granule comes back, bands and region counts included, and it is refused if and only if a granule has more than 288 pairs of big values or a switched window of type 0, or the granules claim more main data than there are. |
| SideInfoFields.ScfsiBack | Libs/dr-libs/dr_mp3.h:1070-1145 | And which scfsi flags each granule gets: the second of a channel its own, the first private bits or none; short blocks have and leave none. |
| SideInfoFields.GranuleBack | Libs/dr-libs/dr_mp3.h:1080-1147 | The same for one granule at any bit. |
| SideInfo.ScfsiMono | Libs/dr-libs/dr_mp3.h:1082-1145 | The shifts and masks of the scfsi word, for mono: the second granule gets the flags of the standard unless one of the two granules is short; the first gets a private bit. |
| SideInfo.ScfsiStereo | Libs/dr-libs/dr_mp3.h:1070-1145 | The same for stereo: which flags each of the four granules ends up with. |
| SideInfo.FirstGranuleScfsi | Libs/dr-libs/dr_mp3.h:1070-1145 | The standard gives the first granule of a channel no scfsi. The code gives it none if and only if the private bits that are shifted into that place are zero, or the one granule that gets them is short: granule 0 in mono, the first of channel 1 in stereo. |
| SideInfo.TablesOfTen | Libs/dr-libs/dr_mp3.h:1124-1140 | Moving a ten-bit table word up by five gives the two tables and zero that the common code takes from it. |
| Reservoir.ReservoirIsRecentPayload | Libs/dr-libs/dr_mp3.h:1760-1784 | Over any run of frames and resets, decoding or counting, the reservoir holds at most 511 bytes and they are the last payload bytes since the last reset. |
| Reservoir.AcceptedMainData | Libs/dr-libs/dr_mp3.h:1776-1784 | The main data put together for an accepted frame are the payload stream from main_data_begin bytes before the frame's own payload, at most 511 bytes more than that payload, and its granules end inside them. |
| Reservoir.CarryMonotone | Libs/dr-libs/dr_mp3.h:1760-1784 | One frame, decoded by one run and counted by another: if the counting run held at least as much before, it does afterwards. |
| Reservoir.KeptOfFrame | Libs/dr-libs/dr_mp3.h:1760-1784 | What one frame leaves, in numbers: all it has up to 511 bytes when it is counted, and when it is decoded what its granules leave of it. |
| Reservoir.CountingHoldsMore | Libs/dr-libs/dr_mp3.h:1760-1784 | Two runs over the same frames: what the counting run holds always ends with what the decoding run holds. |
| Reservoir.CountingAcceptsMore | Libs/dr-libs/dr_mp3.h:2317-2327 | So the counting run accepts every frame that the decoding run accepts, and its count is never smaller. |
| Reservoir.CountIsDecodedIff | Libs/dr-libs/dr_mp3.h:1760-1784 | Over any run of frames and resets, counting gives the number of frames that decode if and only if each counted frame reaches back no further than what the granules of the frames before it leave: a recursion on payload sizes, back pointers and bit counts. |
| Reservoir.HeldIsSize | Libs/dr-libs/dr_mp3.h:1760-1784 | That recursion gives the size of the reservoir, decoding or counting, over any run. |
| Mp3Decoder.Decoder.DecodeFrame | Libs/dr-libs/dr_mp3.h:2269-2362 | On any bytes in any state: the bytes consumed, the samples reported and the decoder state are those of the pure specification `Decode`, and the frame info describes the header that was found. Mp3SilentFrames and Mp3Sync say in numbers and literal fields what that is. |
| Mp3SilentFrames.SilentDecoded | Libs/dr-libs/dr_mp3.h:2269-2361 | A buffer that is one Layer III frame of zeros, of any version, bitrate, rate and mode, in any state of the decoder: all of it is consumed, 1152 or 576 samples are reported, and rate, bitrate, channels and layer are the literals of its fields. |
| Mp3SilentFrames.SilentAt128Kbps | Libs/dr-libs/dr_mp3.h:2269-2361 | In particular 417, 384 and 576 bytes give 1152 samples at 44100, 48000 and 32000 Hz. |
| Mp3Sync.TwoBehind | Libs/dr-libs/dr_mp3.h:2226-2262 | Two frames that go together behind any bytes without 0xFF: the first is decoded, and what is consumed is those bytes and it. |
| Mp3Sync.OneBehind | Libs/dr-libs/dr_mp3.h:2226-2262 | One frame alone behind such bytes is not found: all is consumed, and nothing reported. |
| Mp3Sync.NextInSync | Libs/dr-libs/dr_mp3.h:2276-2294 | After a frame, the frame at the start of the buffer is next, and nothing is forgotten, if and only if version, layer and rate are the same, neither is free format, and the buffer ends with it or another such header follows; otherwise the search begins with all forgotten. |
| Mp3Sync.RefusedStartsOver | Libs/dr-libs/dr_mp3.h:2309-2316 | A frame whose side info is refused gives no samples, and whatever comes next is searched for. |
| Mp3Sync.AcceptedStaysInSync | Libs/dr-libs/dr_mp3.h:2309-2361 | Any other Layer III frame leaves its header for the next, and gives samples if and only if its main_data_begin is at most what is held. |
| Mp3Sync.LayersOneAndTwo | Libs/dr-libs/dr_mp3.h:2329-2361 | A Layer I or II frame gives 384 or 1152 samples and stays in sync; if its body does not stay in it, none, and the search begins. |
| Mp3Decoder.ConsumesSome | Libs/dr-libs/dr_mp3.h:2269-2297 | A call never consumes more than it is given and consumes nothing if and only if it is given nothing. |
| Mp3Decoder.CallsAreRun | Libs/dr-libs/dr_mp3.h:2269-2362 | Over any sequence of calls on any buffers, the decoder's reservoir is that of the reservoir machine over the frames it met and the times it lost sync. |
| Mp3Decoder.ReservoirOverCalls | Libs/dr-libs/dr_mp3.h:1760-1784 | So over any sequence of calls: at most 511 bytes, the latest payload bytes since sync was last lost, and the next frame gets the main data it asks for or is not decoded. |
| Mp3Decoder.CallAhead | Libs/dr-libs/dr_mp3.h:2309-2327 | One call each of a decoding and a counting decoder: they consume the same bytes, and the counting one reports at least as many samples and stays ahead. |
| Mp3Decoder.CountingRunsAhead | Libs/dr-libs/dr_mp3.h:2309-2327 | Over any sequence of calls, counting the samples of a stream never falls short of decoding it. |
| Mp3Decoder.CountIsRightIff | Libs/dr-libs/dr_mp3.h:2309-2361 | Over any sequence of calls on any bytes: the counted samples are the decoded ones if and only if the frames that the calls met satisfy that condition. |
| Mp3CountExample.TwoCountedOneDecoded | Libs/dr-libs/dr_mp3.h:2309-2361 | Two Layer III frames given byte by byte (MPEG-1, mono, 48 kHz, 32 kbit/s), found and decoded by two calls: 1152 samples decode, 2304 are counted. |
| Mp3Decoder.FindFromSound | Libs/dr-libs/dr_mp3.h:2226-2262 | The search returns either a whole frame with a valid header and the length that this header implies, or all bytes and no frame. |
| Mp3Sync.FoundFirst | Libs/dr-libs/dr_mp3.h:2226-2262 | What is found is the first place in the buffer where a frame starts: all of it is there and ten headers that go with it follow, or fewer, one at least, up to the end; or the buffer is that frame. Without one, all bytes are passed over. |
| Mp3Sync.MatchIff | Libs/dr-libs/dr_mp3.h:2212-2224 | The loop over following headers, by the length of the chain that they make. |
| Mp3Decoder.LeastFree | Libs/dr-libs/dr_mp3.h:2233-2246 | The size of a free format frame is the least distance, below 2304, at which two more of its kind follow, less its padding. |
| Mp3Decoder.FreeThree | Libs/dr-libs/dr_mp3.h:2233-2246 | Three frames of one size besides their padding make such a distance. |
| Mp3Decoder.FindFrame | Libs/dr-libs/dr_mp3.h:2226-2262 | The search loop, with the free format size it keeps, returns what the recursive search returns. |
| Mp3Decoder.FindSize | Libs/dr-libs/dr_mp3.h:2233-2246 | The loop that looks for the length of a free format frame. |
| Mp3Decoder.MatchFrame | Libs/dr-libs/dr_mp3.h:2212-2224 | The loop over up to ten following headers. |
| Mp3Decoder.AcceptedSideInfoFits | Libs/dr-libs/dr_mp3.h:1148-1154 | An accepted side info claims no more main data than main_data_begin and the payload give. |
| Mp3Decoder.FrameLength | Libs/dr-libs/dr_mp3.h:2226-2262 | A Layer III frame is at most 2304 bytes long, free format ones included, so main data never exceed 511 + 2304 bytes. |
| Mp3Decoder.Decoder.RestoreReservoir | Libs/dr-libs/dr_mp3.h:1776-1784 | The scratch buffer holds the wanted end of the reservoir and then the payload; success exactly when the reservoir holds enough. |
| Mp3Decoder.Decoder.SaveReservoir | Libs/dr-libs/dr_mp3.h:1760-1774 | At most 511 of the bytes after the bit position, the last ones, become the reservoir. |
| Mp3Decoder.Decoder.DecodeLayer3Frame | Libs/dr-libs/dr_mp3.h:2309-2327 | The Layer III branch, with side info, reservoir and bit position, is a step of the specification. |
| Mp3Decoder.Decoder.Sync | Libs/dr-libs/dr_mp3.h:2276-2294 | Going on from the last frame, or starting over with a search. |
| Reorder.ReorderBands | Libs/dr-libs/dr_mp3.h:1543-1558 | In place, through the scratch buffer: for any zero-terminated table of equal triples the samples become `Reordered` from the base on, and everything before it stays. |
| Reorder.ReorderedAt | Libs/dr-libs/dr_mp3.h:1543-1558 | Line i of window w in band k goes to base + 3i + w of that band. |
| Reorder.ReorderedMultiset | Libs/dr-libs/dr_mp3.h:1543-1558 | The samples are permuted: none lost, none added. |
| Reorder.WidthsAt | Libs/dr-libs/dr_mp3.h:1543-1558 | The bands are the triples of the table before the first that starts with zero, each as wide as its first entry. |
| Reorder.RestoredReordered | Libs/dr-libs/dr_mp3.h:1543-1558 | The transformation has an inverse on the left ... |
| Reorder.ReorderedRestored | Libs/dr-libs/dr_mp3.h:1543-1558 | ... and on the right: it is a bijection. |
| Reorder.TailUntouched | Libs/dr-libs/dr_mp3.h:1543-1558 | What lies past the bands stays as it is. |
| Reorder.WeaveBand | Libs/dr-libs/dr_mp3.h:1548-1556 | The inner loop: one band, three windows interleaved line by line. |
| Mp3Source.NextAdvances | Libs/dr-libs/dr_mp3.h:2645-2761 | The decoding loop ends on every stream, whatever its bytes; each attempt starts where the last one ended, and no samples means the end of the stream. |
| Mp3Source.NextOn | Libs/dr-libs/dr_mp3.h:2645-2761 | On a stream of independent frames each call delivers exactly the next frame, until there is none. |
| Mp3Source.NextOnFrames | Libs/dr-libs/dr_mp3.h:2645-2761 | On any stream of Layer III frames of known length, independent or not, a call delivers the next frame that finds its main data in the reservoir; those before it are passed over, and fill the reservoir. |
| Mp3Source.LocateOn | Libs/dr-libs/dr_mp3.h:2269-2297 | At a frame boundary of any stream of Layer III frames of known length the frame there is found at once, in sync or not; in sync the reservoir is kept. |
| Mp3Source.DiscardsTwoIff | Libs/dr-libs/dr_mp3.h:3884-3902 | After a jump to a frame boundary, discarding two MP3 frames leaves the reader two frames on if and only if the first needs nothing from before it and the second no more than the payload of the first; otherwise it is too late in the stream, or at its end. |
| Mp3Source.DecodesNextIff | Libs/dr-libs/dr_mp3.h:2269-2361 | The frame at the reader's position is the next to be decoded if and only if its main_data_begin is at most what the reservoir holds; after two discarded frames that is what they leave in an empty one. |
| Mp3Stream.Mp3.Refill | Libs/dr-libs/dr_mp3.h:2659-2707 | Between calls the window pData[dataConsumed..dataConsumed+dataSize] is the slice of the stream that ends at streamCursor; refilling moves it, grows the buffer and keeps that, holding at least 16 KiB unless the stream ends. |
| Mp3Stream.Mp3.DecodeNextFrame | Libs/dr-libs/dr_mp3.h:2645-2761 | The loop over a moving window computes what the specification computes on the stream itself. |
| Mp3Stream.Mp3.ReadPcmFramesRaw | Libs/dr-libs/dr_mp3.h:3639-3684 | On a stream of independent frames a read delivers exactly the PCM frames from the current one on, as many as were asked for or are left. |
| Mp3Stream.HandedIsStretch | Libs/dr-libs/dr_mp3.h:3648-3662 | PCM frames handed out of one decoded MP3 frame are consecutive PCM frames of the stream. |
| Mp3Stream.Mp3.OnSeek64 | Libs/dr-libs/dr_mp3.h:2614-2641 | Seeking to a 64-bit offset in steps that fit an int arrives there, or fails when it is outside the stream. |
| Mp3Stream.Mp3.SeekToStart | Libs/dr-libs/dr_mp3.h:3773-3787 | Back at the first PCM frame. |
| Mp3Stream.Mp3.SeekBruteForce | Libs/dr-libs/dr_mp3.h:3789-3831 | Reading and discarding arrives at the PCM frame asked for, or at the end, and reports which. |
| Mp3Stream.Mp3.SeekToPoint | Libs/dr-libs/dr_mp3.h:3857-3903 | To a point of a table: on independent frames the PCM position is the one that the point gives. On frames that reach back the reader is at the frame that the point means if and only if the two frames that it discards find all their main data; its reservoir then holds what they leave. |
| Mp3Stream.Mp3.SeekByTable | Libs/dr-libs/dr_mp3.h:3857-3913 | Through any table of usable points, on independent frames: the same place as by brute force. The buffer is sound afterwards unless the jump to a point outside the stream fails halfway. |
| Mp3Stream.Mp3.SeekToPcmFrame | Libs/dr-libs/dr_mp3.h:3915-3931 | With or without a table: the same place. |
| Mp3Stream.Mp3.SeekThroughTable | Libs/dr-libs/dr_mp3.h:4035-4193 | Main result: calculate a table of any size, bind it and seek to any PCM frame; the reader is left before the same PCM frame as after reading and discarding from the start. |
| Mp3Stream.Mp3.CalculateSeekPoints | Libs/dr-libs/dr_mp3.h:4035-4173 | The table that is calculated is the evenly spaced one, with at most one point fewer than there are MP3 frames; the PCM position is restored. |
| Mp3Stream.TableSound | Libs/dr-libs/dr_mp3.h:4075-4160 | The points of a table strictly increase, lie before the end, can be used for seeking, and leave less than two MP3 frames to discard. |
| Mp3Stream.EvenlySpaced | Libs/dr-libs/dr_mp3.h:4060-4079 | As many points as wanted, or one fewer than MP3 frames, at whole multiples of a spacing that divides the stream into one part more, rounded down. |
| Mp3Stream.PointForLeads | Libs/dr-libs/dr_mp3.h:4116-4160 | The point for a PCM frame starts two MP3 frames before the one that holds it, and its discard counts add up. |
| Mp3Stream.SpacingFits | Libs/dr-libs/dr_mp3.h:4075-4079 | The spacing is at least one MP3 frame, and all points fit before the end. |
| Mp3Stream.Mp3.FillTable | Libs/dr-libs/dr_mp3.h:4094-4160 | The loop over the points, with its window of the last three frames, computes the table. |
| Mp3Stream.Mp3.AdvanceTo | Libs/dr-libs/dr_mp3.h:4120-4159 | Advancing stops at the MP3 frame that holds the target, and remembers where the last three frames started. |
| Mp3Stream.Mp3.FrameCounts | Libs/dr-libs/dr_mp3.h:3933-3992 | Counts all MP3 and PCM frames of the stream, and returns to the PCM frame it was called at. |
| Mp3Stream.Mp3.Init | Libs/dr-libs/dr_mp3.h:2835-2862 | On such a stream initialisation succeeds, and the first PCM frame is the next. |
| Mp3Stream.ClosestSeekPoint | Libs/dr-libs/dr_mp3.h:3833-3876 | Never a point after the target; in an increasing table, the last one that is not. |
| AudioFileWav.SaveLoad | Libs/AudioFile-lib/AudioFile.h:560-715 | Main result: a saved file with 1 to 128 channels of equal length is decoded to the samples clamped to the bit depth, with the same rate and depth; with any other number of channels it is refused. |
| AudioFileWav.XmlSaveLoad | Libs/AudioFile-lib/AudioFile.h:706-712 | Any iXML text comes back, if and only if it is not empty or the loading object had none before: an empty text leaves the old one. |
| AudioFileWav.SearchFindsChunks | Libs/AudioFile-lib/AudioFile.h:1264-1299 | In a file made of chunks the search finds the first one with the id and nothing else: bytes inside a body that look like an id never mislead it. |
| AudioFileWav.GetIndexOfChunk | Libs/AudioFile-lib/AudioFile.h:1264-1299 | The search ends on any bytes, because its index strictly grows, and returns what the recursive search returns. |
| AudioFileWav.ChunksFound | Libs/AudioFile-lib/AudioFile.h:568-572 | Where the three chunks of any saved file are found. |
| AudioFileWav.SampleBack | Libs/AudioFile-lib/AudioFile.h:1352-1522 | For each bit depth, storing and reading a sample clamps it to the depth and changes nothing else. |
| AudioFileWav.ColumnBack | Libs/AudioFile-lib/AudioFile.h:637-704 | Reading a channel back from the interleaved data yields its samples, clamped. |
| AudioFileFields.KeptOf | Libs/AudioFile-lib/AudioFile.h:1524-1530 | The range of each depth, in numbers. |
| AudioFileFields.SampleStored | Libs/AudioFile-lib/AudioFile.h:1352-1522 | How a sample is stored: from 0 with silence at 128 in 8 bits, else two's complement, low byte first. |
| AudioFileFields.SampleAt | Libs/AudioFile-lib/AudioFile.h:956-1000 | Sample i of channel c is 44 + (i * channels + c) * depth / 8 bytes into the saved file. |
| AudioFileWav.FittedAt | Libs/AudioFile-lib/AudioFile.h:1524-1530 | What comes back at each place: the sample clamped to the depth. |
| AudioFileWav.AudioFile.SaveToWaveFile | Libs/AudioFile-lib/AudioFile.h:907-1020 | The bytes that are saved, header by header and sample by sample, for the four bit depths (AudioFileFields.SavedHeader and SampleAt have them as literals and numbers); any other depth fails unless there are no samples. |
| AudioFileFields.SavedHeader | Libs/AudioFile-lib/AudioFile.h:907-954 | The 44 bytes of the header: literal names, sizes, PCM, channels, rate, channels * rate * depth in 32 bits over eight, channels * depth / 8 in 16 bits, depth, and the length of the samples; and the length of the file. |
| AudioFileFields.SavedXml | Libs/AudioFile-lib/AudioFile.h:1002-1009 | And the iXML chunk behind the samples. |
| AudioFileWav.AudioFile.DecodeWaveFile | Libs/AudioFile-lib/AudioFile.h:560-715 | On any bytes whose fmt fields, and iXML text if it gets that far, lie inside the file: accepted exactly when the specification accepts, with its samples, rate, depth and iXML; a chunk size that the end of the file cuts is 0. A refused file leaves the iXML as it was, but the rate and depth of its fmt chunk stay behind when there is one. |
| AudioFileFields.LoadedIff | Libs/AudioFile-lib/AudioFile.h:560-715 | When a file whose chunks are found is loaded: tag 1, 3 or 0xFFFE, 1 to 128 channels, depth 8, 16, 24 or 32 within the sample type, 8 * block == channels * depth, the byte rate an eighth of channels * rate * depth in 32 bits, and all frames of the data chunk in the file. |
| AudioFileFields.FramesOfChunk | Libs/AudioFile-lib/AudioFile.h:637-642 | How many frames a data chunk announces: the whole frames of channels * depth / 8 bytes in it, none if its size is negative. |
| AudioFileFields.SupportsRateTimesBlock | Libs/AudioFile-lib/AudioFile.h:605-633 | Where 32 bits hold the product, such a format passes if and only if its byte rate is rate * block. |
| AudioFileFields.SupportsIff | Libs/AudioFile-lib/AudioFile.h:594-633 | The format check in numbers, wrap-around included. |
| AudioFileFields.FieldsOfFile | Libs/AudioFile-lib/AudioFile.h:583-592 | The format fields are the numbers of the bytes at their places. |
| AudioFileFields.SearchStep | Libs/AudioFile-lib/AudioFile.h:1264-1299 | Where the search goes from a place, on any bytes: to the end of a chunk that lies in the file, or nowhere. |
| AudioFileWav.AudioFile.ReadSamples | Libs/AudioFile-lib/AudioFile.h:644-704 | The loops that read the samples fail exactly when the file ends before they do. |
| AudioFileWav.SaveAndLoad | Libs/AudioFile-lib/AudioFile.h:907-1020 | From one object into a file and from that into another: the round trip for the two methods. |
| SampleRate80.RoundTrip | Libs/dr-libs/dr_wav.h:1769-1802 | dr_wav's decoder applied to AudioFile's encoding returns the rate if and only if its magnitude is at least 2, for every rate of up to 63 bits and either sign; a rate of 1 becomes 0. |
| SampleRate80.AudioFileRoundTrip | Libs/AudioFile-lib/AudioFile.h:1534-1574 | AudioFile's own decoder recovers sign, mantissa and exponent of exactly the encoded rate. |
| SampleRate80.EncodeAiffSampleRate | Libs/AudioFile-lib/AudioFile.h:1577-1607 | The ten bytes: sign, biased exponent and normalised mantissa, big-endian. |
| SampleRate80.ExtendedValue | Libs/AudioFile-lib/AudioFile.h:1577-1607 | Sign, an exponent biased by 16383, and a significand that is the magnitude times a power of two, read from the bytes. |
| SampleRate80.KnownRates | Libs/AudioFile-lib/AudioFile.h:1577-1607 | The ten bytes of 44100 and 48000, as literals. |
| SampleRate80.MantissaNormalised | Libs/AudioFile-lib/AudioFile.h:1594-1599 | The top bit of the mantissa is set for every rate of up to 64 bits. |
| SampleRate80.Log2Unique | Libs/AudioFile-lib/AudioFile.h:1588-1589 | Only the exact logarithm normalises the mantissa. |
| SampleRate80.BigEndianBack | Libs/AudioFile-lib/AudioFile.h:1604-1606 | The bytes of the mantissa, read back in order, give the mantissa. |
| SampleRate80.TruncatedIff | Libs/dr-libs/dr_wav.h:1769-1802 | For which ten bytes the decoder gives the value truncated to an integer, or the nearest there is in 64 bits: if and only if the unbiased exponent is 1 to 62, or the number is 0 or infinite, or its exponent is 0 and its top bit clear, or its exponent is 63 and it is below 2^63 or exactly -2^63, or its exponent is larger and its value really is 2^63 or more. So what is below 1 comes out as the largest value of its sign. |
| RingBuffer.OverwritesKeepNewest | Src/Buffer/CVRingBuffer.h:473-575 | Over any sequence of overwriting writes a buffer of N entries holds exactly the last N entries of all that was ever written, in order. |
| RingBuffer.VRingBuffer.WriteBlock | Src/Buffer/CVRingBuffer.h:473-575 | Overwriting, the contents become the newest N of the old contents and the block; otherwise as much of the block is appended as fits, with an overflow reported when it does not; invalid arguments change nothing. |
| RingBuffer.VRingBuffer.WriteFrames | Src/Buffer/CVRingBuffer.h:578-690 | The same for entries per block times blocks, with this overload's own limits. |
| RingBuffer.VRingBuffer.WriteEntry | Src/Buffer/CVRingBuffer.h:502-572 | One entry: the oldest makes room exactly when the buffer is full and overwriting. |
| RingBuffer.VRingBuffer.ReadBlock | Src/Buffer/CVRingBuffer.h:316-391 | Delivers the oldest entries in order and, on request, removes exactly those; the rest of the target and the stored data stay. |
| RingBuffer.VRingBuffer.ReadFrames | Src/Buffer/CVRingBuffer.h:394-470 | The same for entries per block times blocks. |
| RingBuffer.VRingBuffer.Erase | Src/Buffer/CVRingBuffer.h:78-177 | What is left after erasing any number of entries, for empty, partly filled and full buffers, and what is returned. |
| RingBuffer.VRingBuffer.DeleteBlock | Src/Buffer/CVRingBuffer.h:703-709 | Deletes that many of the oldest entries, and says whether there was one and no more were asked for than the buffer can hold. |
| RingBuffer.VRingBuffer.DeleteEntry | Src/Buffer/CVRingBuffer.h:694-701 | Deletes the oldest entry. |
| RingBuffer.VRingBuffer.Flush | Src/Buffer/CVRingBuffer.h:277-313 | Empties the buffer, and zeroes all of it on request. |
| RingBuffer.VRingBuffer.constructor | Src/Buffer/CVRingBuffer.h:181-214 | A new buffer is empty and has the size asked for. |
| RingBuffer.WrapIsModulo | Src/Buffer/CVRingBuffer.h:78-177 | The write index that every operation keeps is (readIdx + currentDataSize) mod N. |
| RingBuffer.EraseDropsOldestIff | Src/Buffer/CVRingBuffer.h:78-177 | Erasing drops exactly the oldest entries if and only if it is not the erasing of one entry from a full buffer of two or more, which empties it. |
| RingBufferRuns.BufferIsQueueIff | Src/Buffer/CVRingBuffer.h:78-709 | Over any sequence of writes, reads and deletions, overwriting or not, each step hands out and leaves what a bounded queue would if and only if the buffer is never full when it is read, nor when one entry of two or more is deleted. |
| RingBufferRuns.RunConserves | Src/Buffer/CVRingBuffer.h:78-709 | Over any such run of the queue: what was there followed by all that was accepted is, in order, all that was read off, deleted or overwritten, followed by what is left. |
| RingBufferRuns.Perform | Src/Buffer/CVRingBuffer.h:316-709 | One operation of the class, whichever it is, is the step of its description. |
| RingBufferRuns.PerformAll | Src/Buffer/CVRingBuffer.h:316-709 | Any sequence of operations on a new buffer hands out what the description says, and with room what a queue would. |

## Left out

Of dr_wav:

- WavSession.WriteThenRead: with metadata asked for, in RIFF and RF64, up to 2^32 bytes of audio; beyond, what is read depends on the audio data (WavRoundTrip.OpenedWithMetadata), and opening the file need not return.
- WavRoundTrip.MetadataRoundTrip: up to 2^32 bytes of audio; WavRoundTrip.OpenedWithMetadata is about all sizes. Metadata are below 2^31 bytes, where the casts of seek offsets to int are exact.
- WavWriter.WavWriter.Uninit: for a data position below 2^31, since the position is cast to int before seeking.
- WavWriter.WavWriter.InitWrite: requires that the counts in cue, smpl and bext items say how many points, loops and bytes of history there are, which the source takes for granted; null strings are empty ones.
- WavReader.WavReader.Initialise: requires that it returns, which WavScan.HangsIff decides. Does not model the onChunk callback, sequential reading, RIFX, AIFF and AIFC.
- WavReader.WavReader.ReadStart: without RIFX, AIFF and AIFC.
- WavMetadataReader.MetadataParser.ProcessChunk: writes to an item that is then not kept are not modelled.
- WavMetadataReader.MetadataParser.FillBextChunk: the byte behind the coding history, which the source leaves as the allocator gave it and then looks for a NUL, is taken to be one.
- WavFormat.TargetIsFileSize: takes the audio size as the exact quotient, where the source computes it in double precision.
- The fields of inst and acid and the fixed part of smpl are kept as the bytes that are copied.
- Writing in sequential mode, whose RIFF size departs from its intent.
- Allocation failure, capacity of growing memory streams, and reads and seeks that fail for other reasons than the end of the data.
- ImaAdpcm.ImaReader.ReadFrames: says which frames are delivered on whole valid blocks with anything behind them; on other data only that the state stays sound and how many frames are reported.
- MsAdpcm.MsReader.ReadFrames: likewise; products that leave 32 bits, which C leaves undefined, wrap around, and reading on after a header with an invalid coefficient index is not covered, since the source would index outside its tables.
- MsAdpcmSamples.NextSample: as long as 32 bits hold the products and the sum.
- WavFrames.AdpcmCount: for data below 2^62 bytes whose block headers are not longer than they are; beyond, the source's sums wrap around.
- WavLayout.ExtensionRead: for fmt chunks below 2^31 bytes; WavReader.WavReader.ReadFmtChunk is about all.
- BumpAllocator.Memory.GetMemory: for requests served in the order in which they were made; MetadataMemory says what the parser really takes.
- MetadataMemory.MemoryIsEnough: for chunks that both passes meet; that they meet the same ones is proved for images of regular chunks (WavPasses.SamePlaces), and WavPasses.ShortFmtParts has them part.
- WavStream.MemoryStream.SeekBy: an offset of -2^31, which the source negates as an int, is taken like any other; C leaves that undefined.
- A-law and mu-law tables, conversions to float and to other widths, reading raw and PCM frames, seeking in PCM.

Of dr_mp3:

- BitStream.BitReader.GetBits: a read of no bits looks at a byte, which must exist, as in the source.
- Mp3Decoder.Decoder.DecodeFrame: decoded PCM is not modelled; the bits that Huffman decoding consumes are those that each granule claims, which is where the source leaves the position. Whether a Layer I or II body stays in its frame is a parameter.
- Mp3Decoder.CountingRunsAhead: assumes that Layer I and II bodies stay in their frames, since counting does not look at them.
- Mp3Decoder.CountIsRightIff: likewise.
- SideInfo.ReadSideInfo: fields that the source does not assign keep what they held; the band tables are represented by their kind.
- Mp3Stream.Mp3.ReadPcmFramesRaw: says which PCM frames are delivered on streams of Layer III frames with known length and the same number of samples that need no bytes of other frames; on other streams only that the buffer invariant is kept. A PCM frame is identified by the MP3 frame that it comes from and its place in it.
- Mp3Stream.Mp3.SeekThroughTable: on such streams. Where a seek arrives on frames that reach back is said for each point of a table (Mp3Stream.Mp3.SeekToPoint), not for the table that is calculated.
- Mp3Stream.Mp3.SeekByTable: after a jump that fails halfway the buffer holds bytes from elsewhere, and nothing is said about reading on.
- Seeking in memory mode, where the stream position is not maintained, and streams with mixed sample rates.
- Requantisation, stereo, IMDCT and synthesis, the Huffman tables, Layers I and II.

Of AudioFile:

- AudioFileWav.SaveLoad: for signed integer sample types at least as wide as the bit depth and files below 2^31 bytes; samples are unbounded integers, of which the depth keeps the clamped part.
- AudioFileWav.AudioFile.DecodeWaveFile: requires that the fmt fields and the iXML text that the source goes to without looking lie inside the file, each only if it gets that far; assertions are switched off.
- AudioFileWav.AudioFile.SaveToWaveFile: up to the bytes that go to disk; channels of unequal length are outside what the source allows.
- SampleRate80.EncodeAiffSampleRate: the logarithm is exact and the rate is an integer; a rate of 0, whose logarithm is infinite, is not covered.
- Float and unsigned sample types, reading and writing AIFF files, files on disk.

Of the buffers:

- RingBuffer.VRingBuffer.Flush: the source returns -1 as a bool when the buffer has no entries, which is true.
- RingBuffer.VRingBuffer.constructor: the size is fixed at construction; resizing a buffer that holds data is not modelled.
- CRingBuffer, a near copy with a missing return, and the classes for file, video and vector buffers, logging, locking and keyboard input.
