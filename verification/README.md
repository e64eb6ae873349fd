# Verification of decoders, ciphers, queues and the Direct3D 12 shell of a console emulator

The project models the parts of the repository where a wrong branch is hardest to notice, and proves for all
inputs, runs and interleavings what they promise:

- **zlib and PNG** (`externals/stb/stb_image.h`). `Bits`, `Words` and `Huffman` hold the bit order and the canonical
  codes of RFC 1951; `Deflate` says what a stream means to the decoder and `StandardDeflate` how that differs from
  RFC 1950 and RFC 1951; `HuffmanTable` and `Inflate` are the table builder, the bit buffer and the growing output of the
  decoder, as methods over arrays and a class. `StoredDeflate` is an encoder and its round trip. `PngFilter`, `PngImage`,
  `PngDecode` and `Adam7` undo row filters, unpack samples and de-interlace, and compare with the independent reader in
  `scripts/compare_frames.py`.
- **AES** (`src/common/aes.h`). `AesField` and `AesCipher` prove the cipher and its inverse through the algebra of
  GF(2^8), `BytePolynomial` and `AesProduct` that its product is the one modulo x^8 + x^4 + x^3 + x + 1, `AesKey` the key
  schedule, `AesModes` ECB, CBC and CTR. `GcmField` and `GcmPolynomial` prove the shift-and-xor product to be the product
  modulo the GCM polynomial, `Gcm` the authenticated mode.
- **The Direct3D 12 transfer stack** (`platform/xbox_uwp`). `D3d12` gives resources, states, recorded commands and what
  a queue does with them; `CommandEncoder`, `DeviceContext` and `VideoCoreBridge` are the classes of the shell;
  `GuestMemory` is the flat memory they refine. The device works at its own pace, every call into it may fail, and
  other parts of the shell use the same queue before and beside the bridge.
  `PipelineCache` and `ResourceAllocator` are the tables and the books beside them.
- **Containers** (`src/common`). `SpscQueue` runs one producer and one consumer action by action, `SharedQueue` any number
  of threads that contend for the mutexes around it; `BitArray` packs a set into words and finds runs.
- **The operation guard** (`platform/xbox_uwp/Main.cpp`). `ShellGuard` runs coroutines from suspension to suspension
  among key and suspend events.

`Division`, `Octets`, `ZeroBytes` and `Options` are shared helpers; `LargeAlphabet` is a stream that RFC 1951 rejects.

Conventions. Exceptions and error codes are `Status` and `Result` values. Whatever a device, a file or the system
decides is chosen freely (`*`), so every statement holds for every such choice. Integer widths are explicit where they
matter: indices and tickets are numbers below 2^64, masks are words of bits, bytes are below 256.

Accesses outside a buffer are modelled where the code can make them: a method then answers `inside == false` and promises
nothing more. A device may be `stalled`: it takes all work, has done none of it yet, and refuses to set the event of a
wait, which makes failures reproducible.

Places where the code does not keep what its comments or a standard promise are stated exactly instead, each with the
condition and an input that shows it:

- `VideoCoreBridge.Bridge.DownloadBuffer`: when the second wait fails while more than the ticket is left of the submitted
  batch, the local readback buffer is released although the batch still names it, and in no other case. `LoseReadback`
  is a bridge to which this happens.
- `DeviceContext.Context.Submit`: the list is executed and the call fails without a sticky error exactly when no ticket is
  left; `SubmitAtLimit` shows the failure and the wait that then succeeds over unfinished work.
- `BitArray.BitArray.LastRangeFrom`: with an end above zero the word read first lies inside the array if and only if there
  are any words (`LastWordInside`); `NoWordsToRead` is the failing input.
- `AesModes.DecryptCbc`: behind the size test, the direct writes stay inside the buffer if and only if it holds 16 bytes
  (`WritesStayInside`); `FiveBytesLeaveTheBuffer` is a failing input. `EmptyDataPasses` and `WrappedSizePasses` are the
  failing inputs of encryption and of ECB decryption, whose contracts say exactly when the buffers are left.
- `StandardDeflate.DecoderTakesMore`: the decoder takes headers with too large a window and blocks with too many
  literal/length codes, and no other stream that `StandardDeflate` rejects. `LargeWindowStream` and
  `LargeAlphabet.StandardRejects` are streams that show it.
- `VideoCoreBridge.Bridge.Destroy`: after a successful last wait nothing that is freed is in use unless a recording is stuck;
  `LoseStaging` is a bridge with such a recording.

## Model

| member | source | states |
|---|---|---|
| HuffmanTable.BitReverse16 | externals/stb/stb_image.h:4107-4114 | The mask-and-shift network mirrors all sixteen bits. |
| HuffmanTable.BitReverse | externals/stb/stb_image.h:4116-4122 | Mirrors the low `bits` bits. |
| HuffmanTable.ZbuildHuffman | externals/stb/stb_image.h:4124-4169 | Accepts lengths 0 to 15 exactly when their Kraft sum is at most one; the tables then represent the canonical code of section 3.2.2 of RFC 1951. |
| HuffmanTable.FastHit | externals/stb/stb_image.h:4124-4169 | A nonzero 9-bit table entry is a symbol whose code, of at most nine bits, starts the stream; a zero entry means no such symbol. |
| Huffman.UniqueMatch | externals/stb/stb_image.h:4124-4169 | With a Kraft sum of at most one, two symbols whose codes both start the stream are the same symbol. |
| Huffman.SymbolIs | externals/stb/stb_image.h:4243-4271 | A symbol whose code starts the stream is the one the format decodes. |
| Huffman.KraftIsLevel | externals/stb/stb_image.h:4143-4156 | The running code counter is the Kraft sum, level by level. |
| HuffmanTable.MatchInLevel | externals/stb/stb_image.h:4224-4241 | A 16-bit window below the limit of length s holds a symbol of length s. |
| HuffmanTable.NoMatch | externals/stb/stb_image.h:4224-4241 | A window above every limit starts with no code. |
| Inflate.ZBuf.FillBits | externals/stb/stb_image.h:4202-4212 | Refilling appends the next input bytes to the buffered bits, zero bytes past the end, until more than 24 bits are held. |
| Inflate.ZBuf.Zreceive | externals/stb/stb_image.h:4214-4222 | Reads the next n bits of the stream, least significant first, and moves n bits on. |
| Inflate.ZBuf.ZhuffmanDecodeSlowpath | externals/stb/stb_image.h:4224-4241 | The bit-reversed search returns the symbol whose code starts the stream and consumes its length, or fails when none does. |
| Inflate.ZBuf.ZhuffmanDecode | externals/stb/stb_image.h:4243-4271 | Table or slow path: the one symbol of the canonical code, its length consumed, or -1; the single 16-bit padding at the end of input included. |
| Inflate.ZBuf.Zexpand | externals/stb/stb_image.h:4273-4295 | Growing doubles the buffer until n more bytes fit and keeps every byte written; it fails exactly for a fixed buffer or past the unsigned range. |
| Inflate.ZBuf.CopyMatch | externals/stb/stb_image.h:4347-4354 | Overlapping copies, with the one-byte shortcut for distance 1, append what the byte-by-byte definition appends. |
| Inflate.ZBuf.EmitByte | externals/stb/stb_image.h:4316-4321 | A literal is appended, the buffer growing when it must. |
| Inflate.ZBuf.EmitMatch | externals/stb/stb_image.h:4344-4354 | A length and distance pair is appended when it fits. |
| Inflate.ZBuf.ReadToken | externals/stb/stb_image.h:4309-4343 | Reads the literal, end of block or length and distance pair that section 3.2.5 of RFC 1951 defines, with its extra bits. |
| Inflate.ZBuf.ParseHuffmanBlock | externals/stb/stb_image.h:4309-4357 | A compressed block outputs what its tokens mean, or fails. |
| Inflate.ZBuf.ReadRun | externals/stb/stb_image.h:4379-4402 | One code length symbol with its repeat count: 16 repeats the last length, 17 and 18 repeat zero. |
| Inflate.ZBuf.ReadCodeLengths | externals/stb/stb_image.h:4379-4402 | The code lengths of a dynamic block, rejecting runs past the end. |
| Inflate.ZBuf.ComputeHuffmanCodes | externals/stb/stb_image.h:4359-4407 | Builds the two codes of section 3.2.7 of RFC 1951, rejecting runs past the end and codes with a Kraft sum above one; up to 288 literal/length codes are taken. |
| Inflate.ZBuf.StoredHeader | externals/stb/stb_image.h:4409-4426 | Drains the bit buffer to the byte boundary and reads the four header bytes. |
| Inflate.ZBuf.ParseUncompressedBlock | externals/stb/stb_image.h:4409-4436 | A stored block copies its bytes after checking the complemented length. |
| Inflate.ZBuf.ParseZlibHeader | externals/stb/stb_image.h:4438-4449 | Accepts exactly headers with method deflate, no dictionary, a valid check and something after them, whatever window they claim. |
| Inflate.ZBuf.ParseZlib | externals/stb/stb_image.h:4481-4508 | Invalid streams fail; complete streams succeed exactly when the output fits, and the output is then what the stream means. StandardDeflate relates this to the two RFCs. |
| StandardDeflate.StandardStreamsDecode | externals/stb/stb_image.h:4438-4508 | Every complete stream of RFC 1950 and RFC 1951 means to the decoder what the RFCs say. |
| StandardDeflate.DecoderTakesMore | externals/stb/stb_image.h:4359-4508 | A stream the decoder completes is a stream of the RFCs if and only if its header claims a window of at most 32K and no block it reaches announces more than 286 literal/length codes. |
| StandardDeflate.BlocksDiffer | externals/stb/stb_image.h:4359-4372 | Block by block, the decoder and RFC 1951 agree until a dynamic block with more than 286 literal/length codes is reached. |
| StandardDeflate.HeadersDiffer | externals/stb/stb_image.h:4438-4449 | The headers accepted beyond RFC 1950 are exactly those with CINFO above seven. |
| StandardDeflate.LargeWindowHeader | externals/stb/stb_image.h:4438-4449 | A header with CINFO eight: accepted by the decoder, forbidden by RFC 1950. |
| StandardDeflate.LargeWindowStream | externals/stb/stb_image.h:4438-4449 | Stored blocks behind such a header are complete for the decoder and rejected by RFC 1950, whatever they hold. |
| LargeAlphabet.DecoderCompletes | externals/stb/stb_image.h:4359-4407 | A concrete stream of one dynamic block with 288 literal/length codes decodes to no output. |
| LargeAlphabet.StandardRejects | externals/stb/stb_image.h:4359-4407 | RFC 1951 rejects that stream, which the decoder completes. |
| Inflate.DecodeBuffer | externals/stb/stb_image.h:4557-4566 | Decoding into a fixed buffer returns the length and the bytes, or -1. |
| Inflate.DecodeMalloc | externals/stb/stb_image.h:4541-4555 | Decoding into a growing buffer succeeds for every complete stream whose output the doubling can reach; the length is reported as an int, negative past INT_MAX. |
| Deflate.FixedLengthsKraft | externals/stb/stb_image.h:4451-4479 | The fixed literal code is complete, so building it cannot fail. |
| Deflate.FixedDistancesKraft | externals/stb/stb_image.h:4451-4479 | The fixed distance code over 32 symbols is complete. |
| StoredDeflate.BlocksRoundTrip | externals/stb/stb_image.h:4409-4508 | Whatever surrounds them, stored blocks decode to the chunks they were made of. |
| StoredDeflate.StreamRoundTrip | externals/stb/stb_image.h:4438-4508 | A zlib stream of stored blocks decodes to the stored bytes and ends after the last block. |
| StoredDeflate.StoreAndLoad | externals/stb/stb_image.h:4557-4566 | The decoder gives back every byte sequence that was stored, checksum unread, when the buffer is large enough, and fails when it is not. |
| PngFilter.PaethIsPredictor | externals/stb/stb_image.h:4657-4668 | The branch-free form is the Paeth predictor of section 9.4 of the PNG specification. |
| PngFilter.UnfilterFilter | externals/stb/stb_image.h:4755-4785 | Reconstruction undoes every filter type for every row, prior row and pixel size. |
| PngFilter.FirstRowFilters | externals/stb/stb_image.h:4648-4655 | Over a prior row of zeros, up is none and Paeth is sub. |
| PngFilter.AverageRow | externals/stb/stb_image.h:4768-4773 | The average filter, with and without a left neighbour. |
| PngFilter.PaethRow | externals/stb/stb_image.h:4774-4779 | The Paeth filter, the first pixel by the byte above alone. |
| PngFilter.UnfilterRow | externals/stb/stb_image.h:4748-4785 | With its first-row substitutions and whatever the prior buffer holds, a row is what the specification reconstructs. |
| PngImage.RestLength | externals/stb/stb_image.h:4722-4726 | The length test guarantees every row its filter byte and its bytes. |
| PngImage.RowsRoundTrip | externals/stb/stb_image.h:4737-4787 | Whatever filters an encoder chose row by row, and whatever follows, the rows come back. |
| PngImage.Unpack1 | externals/stb/stb_image.h:4810-4817 | One-bit samples leave the byte leftmost first, scaled. |
| PngImage.Unpack2 | externals/stb/stb_image.h:4804-4809 | Two-bit samples leave the byte leftmost first, scaled. |
| PngImage.Unpack4 | externals/stb/stb_image.h:4798-4803 | Four-bit samples leave the byte leftmost first, scaled. |
| PngImage.AlphaExpandGrey | externals/stb/stb_image.h:4675-4684 | Backwards expansion adds the alpha byte even when source and destination are one buffer. |
| PngImage.AlphaExpandRgb | externals/stb/stb_image.h:4685-4693 | The same for three samples a pixel. |
| PngImage.ExpandRow | externals/stb/stb_image.h:4789-4852 | A row of any depth and layout becomes its samples, with alpha where asked. |
| PngDecode.DecodeRows | externals/stb/stb_image.h:4737-4853 | Alternating the two buffer halves, every row is reconstructed from the true previous row; only filter types above 4 fail. |
| PngDecode.CreatePngImageRaw | externals/stb/stb_image.h:4696-4859 | Succeeds exactly for sizes that stay in int, enough data and known filters, and then holds the samples of every row. |
| Adam7.PassStaysInside | externals/stb/stb_image.h:4887-4897 | What a pass writes lies in the image and belongs to that pass by the pattern of section 8.2 of the PNG specification. |
| Adam7.PixelIsWritten | externals/stb/stb_image.h:4887-4897 | Every pixel of the image is written by its pass. |
| Adam7.WrittenOnce | externals/stb/stb_image.h:4887-4897 | No pixel is written twice. |
| Adam7.PassesHoldTheImage | externals/stb/stb_image.h:4879-4881 | The seven pass sizes add up to width times height. |
| Adam7.ScatterPass | externals/stb/stb_image.h:4887-4894 | A pass moves exactly its own pixels to their places. |
| Adam7.CreatePngImage | externals/stb/stb_image.h:4861-4904 | De-interlacing succeeds exactly when the whole image passes the size test and every non-empty pass decodes, and every pixel then comes from its place in its pass. |
| Adam7.PassesFitWholeDoesNot | externals/stb/stb_image.h:4870-4871 | For a large image every pass passes the size tests while the whole does not, so the first test matters. |
| PngFilter.PaethByIndexIsPredictor | scripts/compare_frames.py:104-107 | Taking the first smallest distance is the Paeth predictor. |
| PngDecode.UnfilterInPlace | scripts/compare_frames.py:95-110 | The in-place row loop reconstructs the row. |
| PngDecode.ReadRgb | scripts/compare_frames.py:81-115 | Accepts exactly streams of the right length with known filters and returns the first three samples of every pixel. |
| PngDecode.DecodersAgree | scripts/compare_frames.py:86-115 | On eight-bit RGB and RGBA the script and the C decoder see the same picture. |
| AesField.SboxInverse | src/common/aes.h:42-98 | The two S-box tables are inverse to each other. |
| AesField.SboxIsFips | src/common/aes.h:42-60 | The S-box is the field inverse followed by the affine map of section 5.1.1 of FIPS 197. |
| AesField.MulBytes | src/common/aes.h:131-143 | The shift-and-add loop multiplies in GF(2^8) as AesProduct.MulIsProductModulo says. |
| AesProduct.MulIsProductModulo | src/common/aes.h:122-143 | The product of two bytes is what the polynomial product over GF(2) leaves modulo x^8 + x^4 + x^3 + x + 1 (section 4.2 of FIPS 197). |
| BytePolynomial.RemainderIsUnique | src/common/aes.h:122-143 | A polynomial leaves only one remainder below x^8, with one quotient. |
| AesField.MulAdds | src/common/aes.h:122-143 | Multiplication by a constant distributes over xor. |
| AesField.MatrixInverse | src/common/aes.h:145-179 | The inverse MixColumns coefficients times the forward ones give the unit matrix. |
| AesCipher.SubBytesIsFips | src/common/aes.h:78-98 | SubBytes on words is SubBytes on bytes. |
| AesCipher.ShiftRowsIsFips | src/common/aes.h:100-120 | The masked word moves rotate row r by r columns. |
| AesCipher.MixColumnsIsFips | src/common/aes.h:145-165 | The packed column product is the byte formula of section 5.1.3 of FIPS 197. |
| AesCipher.ShiftRowsBack | src/common/aes.h:100-120 | Inverse row shifts undo row shifts. |
| AesCipher.MixColumnsBack | src/common/aes.h:145-179 | Inverse column mixing undoes column mixing. |
| AesCipher.DecryptEncrypt | src/common/aes.h:270-310 | Decryption undoes encryption for every block and every list of at least two round keys. |
| AesCipher.EncryptState | src/common/aes.h:270-289 | The in-place rounds compute the cipher. |
| AesCipher.DecryptState | src/common/aes.h:291-310 | The in-place rounds compute the inverse cipher. |
| AesKey.KeyWordIsFips | src/common/aes.h:206-237 | Every expanded word is the one of section 5.2 of FIPS 197, for all three key sizes. |
| AesKey.ExpandKey | src/common/aes.h:206-237 | Sixteen, 24 or 32 bytes expand to their schedule; other sizes fail. |
| AesModes.CheckPadding | src/common/aes.h:750-762 | Accepts exactly a last block that ends in n bytes of value n. |
| AesModes.PadIsOk | src/common/aes.h:750-762 | Padding is recognised and measured again, for every length. |
| AesModes.EncryptCondMeans | src/common/aes.h:697-721 | Encryption is accepted exactly for the three key sizes, data in whole blocks or padded, and a buffer with room for all of it, or padded data so long that its padded size wraps around to zero. |
| AesModes.PaddedSizeWraps | src/common/aes.h:676-678 | The padded size is the size of the padded data except for the last sixteen sizes of unsigned long, where it is zero. |
| AesModes.WrappedSizePasses | src/common/aes.h:697-721 | Eight bytes below 2^32, padded, into a buffer of none: the size test passes. |
| AesModes.SizeTestIsSound | src/common/aes.h:723-748 | A buffer the decryption size test refuses cannot hold what decryption gives, whatever the padding. |
| AesModes.SizeTestIsTight | src/common/aes.h:723-748 | A buffer it accepts holds what decryption gives for some padding. |
| AesModes.EncryptEcb | src/common/aes.h:804-833 | Fills the buffer with the ECB encryption of the padded or plain data, or reports the error and writes nothing; leaves the buffer exactly when a wrapped size test let data pass that it has no room for. |
| AesModes.DecryptEcb | src/common/aes.h:848-884 | Writes the decryption, checks and measures the padding and the buffer; leaves its buffers exactly without data and without padding to remove. |
| AesModes.EcbRestores | src/common/aes.h:804-884 | ECB decryption accepts what encryption produced and restores the data, for every length with padding and every positive multiple of 16 without. |
| AesModes.EncryptCbc | src/common/aes.h:908-960 | Fills the buffer with the CBC encryption, the single short first block included, with or without a vector; leaves the buffer exactly when it is smaller than what is written although the size test passes. |
| AesModes.CbcNeeds | src/common/aes.h:908-960 | Behind the size test, what is written fits unless the padded size wrapped around, or there is no data and the buffer holds no block. |
| AesModes.EmptyDataPasses | src/common/aes.h:908-1027 | Without data and padding the size tests ask for no room, while CBC writes a block and ECB reads one. |
| AesModes.DecryptCbc | src/common/aes.h:976-1027 | Writes the CBC decryption, checks and measures the padding and the buffer; leaves its buffers exactly without data or with a buffer smaller than a direct write. |
| AesModes.WritesStayInside | src/common/aes.h:976-1005 | Behind the size test, the blocks decrypted straight into the buffer stay inside it if and only if it holds 16 bytes. |
| AesModes.FiveBytesLeaveTheBuffer | src/common/aes.h:976-1005 | Five padded bytes and a buffer of five: the size test passes and the first block is written past the end. |
| AesModes.CbcRoundTrip | src/common/aes.h:908-1027 | CBC decryption undoes CBC encryption block by block. |
| AesModes.CbcRestores | src/common/aes.h:908-1027 | The size test accepts what encryption produced for every buffer that holds the data; the writes stay inside it, and the data is restored, exactly from 16 bytes on. |
| AesModes.EncryptThenDecryptCbc | src/common/aes.h:908-1027 | There and back through both calls: the data is restored, unless the buffer holds less than a block, which the code then leaves. |
| AesModes.IncrCounter | src/common/aes.h:260-268 | Increments the sixteen-byte big-endian counter. |
| AesModes.CounterIsSum | src/common/aes.h:260-268 | Counter k is the nonce plus k modulo 2^128. |
| AesModes.CryptCtr | src/common/aes.h:1169-1191 | Byte i is xored with byte i mod 16 of the encryption of counter i / 16. |
| AesModes.CtrTwice | src/common/aes.h:1169-1191 | Applying the mode twice is the identity. |
| GcmField.MulBits | src/common/aes.h:479-502 | The shift-and-xor loop computes the field product in GCM bit order. |
| GcmField.MulCommutes | src/common/aes.h:479-502 | The product commutes. |
| GcmField.MulAssociates | src/common/aes.h:479-502 | The product associates. |
| GcmField.MulAddsLeft | src/common/aes.h:479-502 | The product distributes over xor from the left. |
| GcmField.MulAddsRight | src/common/aes.h:479-502 | The product distributes over xor from the right. |
| GcmPolynomial.MulIsProductModulo | src/common/aes.h:479-502 | The product is the polynomial product minus a multiple of x^128 + x^7 + x^2 + x + 1 (section 6.3 of NIST SP 800-38D). |
| GcmPolynomial.RemainderIsUnique | src/common/aes.h:479-502 | That remainder is the only one of fewer than 128 coefficients. |
| Gcm.ToFromBits | src/common/aes.h:419-425 | Blocks and bit strings correspond. |
| Gcm.GhashBytes | src/common/aes.h:509-518 | The loop computes GHASH. |
| Gcm.GhashIsPolynomial | src/common/aes.h:509-518 | GHASH is the block polynomial evaluated at H (section 6.4). |
| Gcm.Inc32Adds | src/common/aes.h:459-471 | Only the last four bytes count, modulo 2^32. |
| Gcm.GctrBytes | src/common/aes.h:531-565 | The loop computes GCTR, the short last block included (section 6.5). |
| Gcm.CalcJ0 | src/common/aes.h:591-605 | The pre-counter block for vectors of twelve bytes and of any other length. |
| Gcm.CalcTag | src/common/aes.h:607-634 | The authentication tag of section 7.1. |
| Gcm.GctrTwice | src/common/aes.h:531-565 | GCTR is its own inverse. |
| Gcm.GcmRestores | src/common/aes.h:1046-1121 | What was sealed opens to the plaintext under its own tag and is refused under any other tag of that size. |
| Gcm.EncryptGcm | src/common/aes.h:1046-1061 | Seals in place, or reports the size error and writes nothing. |
| Gcm.DecryptGcm | src/common/aes.h:1099-1121 | Opens in place exactly when the tag matches, otherwise leaves the ciphertext. |
| D3d12.WellMixedWritesAlone | platform/xbox_uwp/d3d12_command_encoder.cpp:39-61 | The mask test lets a write bit through only alone. |
| CommandEncoder.Encoder.TrackedWritesAlone | platform/xbox_uwp/d3d12_command_encoder.cpp:39-80 | No tracked state mixes a write bit with any other bit. |
| D3d12.MayBeCopied | platform/xbox_uwp/d3d12_command_encoder.cpp:157-177 | Copy states are valid for every resource outside the upload and readback heaps. |
| CommandEncoder.HeapDecidesCopies | platform/xbox_uwp/d3d12_command_encoder.cpp:212-236 | A tracked texture may enter a copy state exactly as its heap allows. |
| CommandEncoder.Encoder.Track | platform/xbox_uwp/d3d12_command_encoder.cpp:82-111 | A new resource enters with the caller's state, a known one must be in it. |
| CommandEncoder.Encoder.Transition | platform/xbox_uwp/d3d12_command_encoder.cpp:127-144 | At most one barrier, from the tracked state; refused exactly for unknown resources and invalid states. |
| CommandEncoder.Encoder.UavBarrier | platform/xbox_uwp/d3d12_command_encoder.cpp:146-155 | Only in the unordered-access state. |
| CommandEncoder.Encoder.CopyBuffer | platform/xbox_uwp/d3d12_command_encoder.cpp:157-177 | Accepted exactly within bounds on fitting heaps; records the two barriers and the copy, or nothing. |
| CommandEncoder.Encoder.CopyTexture | platform/xbox_uwp/d3d12_command_encoder.cpp:179-248 | Accepted exactly for the device's own footprint inside the buffer; records the two barriers and the copy, or nothing. |
| CommandEncoder.Encoder.ClearColor | platform/xbox_uwp/d3d12_command_encoder.cpp:250-262 | A clear finds its target in the render-target state. |
| CommandEncoder.Encoder.ClearDepth | platform/xbox_uwp/d3d12_command_encoder.cpp:264-275 | A clear finds its target in the depth-write state. |
| CommandEncoder.Encoder.Resolve | platform/xbox_uwp/d3d12_command_encoder.cpp:277-293 | A resolve finds both operands in their states; a refused destination leaves only the source's barrier. |
| CommandEncoder.Encoder.StateAfterExecution | platform/xbox_uwp/d3d12_command_encoder.cpp:117-125 | The announced state is the one in which executing the list leaves the resource, on any device whose resources start as promised. |
| D3d12.BarriersChain | platform/xbox_uwp/d3d12_command_encoder.cpp:127-144 | In every recording a barrier starts from the state the previous barrier on that resource left, and changes it. |
| D3d12.FirstBarrier | platform/xbox_uwp/d3d12_command_encoder.cpp:82-144 | The first barrier on a resource starts from its tracked initial state. |
| D3d12.LegalAt | platform/xbox_uwp/d3d12_command_encoder.cpp:127-293 | Every recorded command finds its operands in a state that permits it. |
| D3d12.RunInLarger | platform/xbox_uwp/d3d12_command_encoder.cpp:82-144 | A recording stays legal, with the same effect, when more resources exist. |
| CommandEncoder.TrackNew | platform/xbox_uwp/d3d12_command_encoder.cpp:82-111 | Tracking a resource in mid-recording does not disturb what was recorded. |
| DeviceContext.Context.SignalFence | platform/xbox_uwp/d3d12_device_context.cpp:52-65 | Tickets ascend by one; a refused signal is remembered for good, a reached limit is not. |
| DeviceContext.Context.Submit | platform/xbox_uwp/d3d12_device_context.cpp:67-76 | Executes, then signals; after a refused signal nothing is executed again; what a list without a ticket leaves behind is stated exactly. |
| DeviceContext.SubmitAtLimit | platform/xbox_uwp/d3d12_device_context.cpp:52-108 | At the last ticket but one the list is executed, the call fails and no error stays; with every ticket done a wait for the newest one can then succeed over unfinished work. |
| DeviceContext.Context.CompletedValue | platform/xbox_uwp/d3d12_device_context.cpp:78-86 | Never succeeds after a refused signal. |
| DeviceContext.Context.Wait | platform/xbox_uwp/d3d12_device_context.cpp:88-108 | Success means the ticket's work is done; with the last ticket and nothing unticketed, all work. When the device will not set the event, the wait fails with the work still queued. |
| DeviceContext.Context.WaitForGpu | platform/xbox_uwp/d3d12_device_context.cpp:110-112 | Success means the queue has drained. |
| DeviceContext.AfterRefusal | platform/xbox_uwp/d3d12_device_context.cpp:52-112 | After one refused signal no submission, question or wait succeeds in any later sequence of calls, and nothing more is executed. |
| DeviceContext.StepSettles | platform/xbox_uwp/d3d12_device_context.cpp:67-108 | The device's progress never changes what memory will hold when its queue is empty. |
| DeviceContext.StepKeepsTickets | platform/xbox_uwp/d3d12_device_context.cpp:52-76 | Tickets in the queue stay ascending and above the completed value. |
| GuestMemory.WriteMirrors | platform/xbox_uwp/d3d12_videocore_bridge.cpp:71-84 | A write into one bound buffer is one write to flat guest memory. |
| GuestMemory.ReadMirrors | platform/xbox_uwp/d3d12_videocore_bridge.cpp:71-84 | A range of a bound buffer is a range of flat guest memory. |
| GuestMemory.ExtendMirrors | platform/xbox_uwp/d3d12_videocore_bridge.cpp:62-68 | Binding a buffer in a free range extends guest memory by its bytes. |
| VideoCoreBridge.Bridge.Find | platform/xbox_uwp/d3d12_videocore_bridge.cpp:71-84 | Finds the binding that holds the whole range, and fails only when none does or the size is out of bounds. |
| VideoCoreBridge.Bridge.RegisterBuffer | platform/xbox_uwp/d3d12_videocore_bridge.cpp:40-69 | Binds exactly default buffers in free ranges while nothing is recorded and the last batch is done; guest memory grows by what they will hold. |
| VideoCoreBridge.Bridge.BeginRecording | platform/xbox_uwp/d3d12_videocore_bridge.cpp:86-107 | Waits for the last ticket before anything is recycled; exactly the bindings are tracked, in the state the device left them in. |
| VideoCoreBridge.FillPattern | platform/xbox_uwp/d3d12_videocore_bridge.cpp:127-129 | The mapped buffer holds the little-endian word over and over. |
| VideoCoreBridge.Bridge.FillBuffer | platform/xbox_uwp/d3d12_videocore_bridge.cpp:109-138 | An accepted fill is one write to guest memory, a refused one none; nothing is submitted. On a device that refuses no work, every aligned fill of a bound range within the staging limit is accepted. |
| VideoCoreBridge.Bridge.CopyBuffer | platform/xbox_uwp/d3d12_videocore_bridge.cpp:140-154 | An accepted copy is one write of the bytes guest memory holds at the call, and nothing is submitted. On a device that refuses no work, every copy between two bindings is accepted. |
| VideoCoreBridge.CopyCommandsCopy | platform/xbox_uwp/d3d12_videocore_bridge.cpp:140-154 | The barriers of a recorded copy move no bytes. |
| VideoCoreBridge.CopyRepresents | platform/xbox_uwp/d3d12_videocore_bridge.cpp:140-154 | A recorded copy into a binding is seen as one guest write. |
| VideoCoreBridge.UnseenRepresents | platform/xbox_uwp/d3d12_videocore_bridge.cpp:120-134 | A resource nobody named yet changes nothing the guest sees. |
| VideoCoreBridge.Bridge.Flush | platform/xbox_uwp/d3d12_videocore_bridge.cpp:156-168 | Submits the recording for the next ticket; what the device will hold and the states it leaves are those of the recording. |
| VideoCoreBridge.Bridge.Executable | platform/xbox_uwp/d3d12_videocore_bridge.cpp:156-168 | At submission the device's states permit every recorded command. |
| VideoCoreBridge.Bridge.NothingInUseIsGone | platform/xbox_uwp/d3d12_videocore_bridge.cpp:86-188 | Whatever a recording or the queue names is held by a binding, staging, a pending image or the encoder, or is named by lists of others; the only exception is a readback buffer that a failed download gave up. |
| VideoCoreBridge.Bridge.BatchInFrontOfTicket | platform/xbox_uwp/d3d12_videocore_bridge.cpp:86-95 | Staging buffers and pending images are named only in front of the last ticket, and once it is done not at all, whatever others have queued. |
| VideoCoreBridge.Bridge.MarkersNeedRecording | platform/xbox_uwp/d3d12_videocore_bridge.cpp:156-168 | Open markers imply an open recording. |
| VideoCoreBridge.Bridge.Finish | platform/xbox_uwp/d3d12_videocore_bridge.cpp:170-177 | After success the last ticket is done, and memory will hold the recording's result; after a failed wait exactly a rest of the batch is queued. |
| VideoCoreBridge.Bridge.OnSubmit | platform/xbox_uwp/d3d12_videocore_bridge.cpp:181-188 | Recycles only when the last ticket has completed. |
| VideoCoreBridge.Bridge.DownloadBuffer | platform/xbox_uwp/d3d12_videocore_bridge.cpp:190-207 | Success returns the guest's bytes. The readback buffer is given up while still queued exactly when the second wait failed with more than the ticket left of its batch; refused before anything is flushed, it changes nothing. |
| VideoCoreBridge.ReadbackRepresents | platform/xbox_uwp/d3d12_videocore_bridge.cpp:197-200 | The readback buffer receives the guest's bytes and nothing else changes. |
| VideoCoreBridge.Bridge.EndOfBatch | platform/xbox_uwp/d3d12_videocore_bridge.cpp:197-201 | What is left of a batch that ends with the copy names the readback buffer exactly while it is more than the ticket. |
| VideoCoreBridge.LoseReadback | platform/xbox_uwp/d3d12_videocore_bridge.cpp:190-207 | On a device that takes the copy, has not begun it and refuses to set the event of the wait, a new bridge comes to hold a queued copy into a readback buffer that nobody owns. |
| VideoCoreBridge.Bridge.Destroy | platform/xbox_uwp/d3d12_videocore_bridge.cpp:19-28 | What the bridge frees as it goes is not in use after a successful last wait, unless a recording is stuck. |
| VideoCoreBridge.LoseStaging | platform/xbox_uwp/d3d12_videocore_bridge.cpp:19-28 | With a recording stuck for want of a ticket, the last wait succeeds and a staging buffer is freed while queued. |
| VideoCoreBridge.Bridge.CreateLinearFrame | platform/xbox_uwp/d3d12_videocore_bridge.cpp:209-242 | The frame will show the guest's rows as they were at the call; nothing is submitted. |
| VideoCoreBridge.FrameRepresents | platform/xbox_uwp/d3d12_videocore_bridge.cpp:232-239 | A recorded texture copy shows the rows of guest memory and nothing else changes. |
| VideoCoreBridge.Bridge.FrameShows | platform/xbox_uwp/d3d12_videocore_bridge.cpp:209-242 | A frame whose commands have run holds the rows it was made from, unless others have recorded on it. |
| VideoCoreBridge.Bridge.Elsewhere | platform/xbox_uwp/d3d12_videocore_bridge.cpp:86-95 | Lists that others submit on the same queue, with a ticket or without, leave everything the bridge promises. |
| VideoCoreBridge.Bridge.ScopeMarkerBegin | platform/xbox_uwp/d3d12_videocore_bridge.cpp:251-259 | Opens a recording and one more marker, or neither; guest memory stays and nothing is submitted. |
| VideoCoreBridge.Bridge.ScopeMarkerEnd | platform/xbox_uwp/d3d12_videocore_bridge.cpp:261-266 | Refused without a recording or an open marker. |
| VideoCoreBridge.Replay | platform/xbox_uwp/d3d12_videocore_bridge.cpp:40-266 | For every sequence of registrations, fills, copies, flushes, downloads, frames and markers, every list others submit in between and every pace of the device, downloads return what flat guest memory held and frames show it, accepted calls applied at once and in order. |
| VideoCoreBridge.UnflushedNeverExecutes | platform/xbox_uwp/d3d12_videocore_bridge.cpp:109-207 | A recording that is not flushed is never queued, let alone executed: only flushes, finishes, downloads and lists of others ever lengthen the queue. |
| VideoCoreBridge.ApplySnoc | platform/xbox_uwp/d3d12_videocore_bridge.cpp:40-266 | One more call extends the history by what flat memory and the frames say. |
| PipelineCache.IntegerKeyIsInjective | platform/xbox_uwp/d3d12_pipeline_cache.cpp:11-15 | Eight little-endian bytes determine the number. |
| PipelineCache.SizedIsPrefixFree | platform/xbox_uwp/d3d12_pipeline_cache.cpp:17-24 | Length-prefixed fields can be told apart whatever follows. |
| PipelineCache.KeysAreInjective | platform/xbox_uwp/d3d12_pipeline_cache.cpp:126-137 | Requests with equal keys are equal. |
| PipelineCache.AppendInteger | platform/xbox_uwp/d3d12_pipeline_cache.cpp:11-15 | Appends eight bytes, least significant first. |
| PipelineCache.AppendBytes | platform/xbox_uwp/d3d12_pipeline_cache.cpp:17-24 | Appends length and bytes; empty data is refused. |
| PipelineCache.MakeKey | platform/xbox_uwp/d3d12_pipeline_cache.cpp:126-137 | The key of a request, refused for an empty field. |
| PipelineCache.Cache.RootSignature | platform/xbox_uwp/d3d12_pipeline_cache.cpp:86-113 | A hit returns the layout stored for these bytes, a miss stores one, at most 64. |
| PipelineCache.Cache.Graphics | platform/xbox_uwp/d3d12_pipeline_cache.cpp:126-179 | Hit or miss, the pipeline returned was built for exactly this request; counters equal table sizes. |
| PipelineCache.Cache.Compute | platform/xbox_uwp/d3d12_pipeline_cache.cpp:181-203 | The same for compute pipelines. |
| PipelineCache.EntriesServeOneRequest | platform/xbox_uwp/d3d12_pipeline_cache.cpp:126-203 | Two requests share an entry only when they are equal. |
| ResourceAllocator.TotalWithout | platform/xbox_uwp/d3d12_resource_allocator.cpp:44-53 | The charged total loses exactly a removed handle's bytes. |
| ResourceAllocator.TotalMoved | platform/xbox_uwp/d3d12_resource_allocator.cpp:33-42 | Moving a handle leaves every total as it was. |
| ResourceAllocator.Handle.Reset | platform/xbox_uwp/d3d12_resource_allocator.cpp:44-53 | A reset takes the handle's bytes off the books, never below zero. |
| ResourceAllocator.Handle.MoveFrom | platform/xbox_uwp/d3d12_resource_allocator.cpp:29-42 | A move releases what the target held, from whatever books, then transfers the charge; self-assignment does nothing. |
| ResourceAllocator.Allocator.Create | platform/xbox_uwp/d3d12_resource_allocator.cpp:112-150 | Success books the allocation within the budget before the replaced resource is released; failure leaves the output handle as it was. |
| ResourceAllocator.Run | platform/xbox_uwp/d3d12_resource_allocator.cpp:29-150 | Whatever is created, moved and released between any number of allocators, live bytes are the sum over live handles and over the three heaps, within peak and budget. |
| BitArray.DecrementSubtracts | src/common/bit_array.h:76-79 | The borrow chain subtracts one. |
| BitArray.MaskBits | src/common/bit_array.h:76-79 | The two shift masks select the bits from and up to a position, without a shift by 64. |
| BitArray.MasksAreRange | src/common/bit_array.h:72-79 | First, middle and last word masks are the range's share of each word. |
| BitArray.BitArray.FromRange | src/common/bit_array.h:75-102 | The range copy is the intersection with the range, empty for a range that leaves the array. |
| BitArray.BitArray.SetRange | src/common/bit_array.h:126-153 | Set union with the range. |
| BitArray.BitArray.UnsetRange | src/common/bit_array.h:155-182 | Set difference with the range. |
| BitArray.BitArray.FirstRangeFrom | src/common/bit_array.h:210-271 | The first run of members at or after the start, cut off at the start. |
| BitArray.BitArray.FindEndBit | src/common/bit_array.h:214-233 | The first index from a word on that is no member. |
| BitArray.BitArray.LastRangeFrom | src/common/bit_array.h:277-333 | The last run of members before the end, cut off at the end; the search reads outside the array exactly when there are no words and the end is above zero. |
| BitArray.LastWordInside | src/common/bit_array.h:277-314 | For an end above zero the word read first exists if and only if the array has any. |
| BitArray.NoWordsToRead | src/common/bit_array.h:277-314 | In an array of no words that is word 2^58 - 1. |
| BitArray.BitArray.Iterate | src/common/bit_array.h:29-59 | Iteration yields every maximal run exactly once, ascending, and together they are the set. |
| BitArray.BitArray.RunAfter | src/common/bit_array.h:29-59 | The range found after a run is the next maximal run. |
| SpscQueue.SlotOfIndex | src/common/bounded_threadsafe_queue.h:93-94 | A wrapped index finds the same slot, since the capacity divides 2^64. |
| SpscQueue.SlotsDiffer | src/common/bounded_threadsafe_queue.h:93-94 | Items less than a capacity apart never share a slot. |
| SpscQueue.DistanceIsCount | src/common/bounded_threadsafe_queue.h:76-89 | Unsigned subtraction of wrapped indices counts the items. |
| SpscQueue.Queue.PushAdmission | src/common/bounded_threadsafe_queue.h:72-91 | A push is refused only when the ring is full. |
| SpscQueue.Queue.PushConstruct | src/common/bounded_threadsafe_queue.h:93-97 | Constructing an item leaves every unread slot alone. |
| SpscQueue.Queue.PushPublish | src/common/bounded_threadsafe_queue.h:99-100 | Incrementing the index publishes the item. |
| SpscQueue.Queue.PushNotify | src/common/bounded_threadsafe_queue.h:102-106 | Returning, the producer has woken a sleeping consumer. |
| SpscQueue.Queue.PopCheck | src/common/bounded_threadsafe_queue.h:109-137 | A pop returns without an item only when the ring is empty or a stop is asked for. |
| SpscQueue.Queue.PopMove | src/common/bounded_threadsafe_queue.h:139-143 | Moving an item out leaves every other unread slot alone. |
| SpscQueue.Queue.PopPublish | src/common/bounded_threadsafe_queue.h:145-146 | Items leave in the order they came. |
| SpscQueue.Queue.PopNotify | src/common/bounded_threadsafe_queue.h:148-152 | Returning, the consumer has woken a sleeping producer and hands over the popped value. |
| SpscQueue.Queue.InOrder | src/common/bounded_threadsafe_queue.h:72-153 | What pops returned is a prefix of what was pushed, and at most the capacity is outstanding. |
| SpscQueue.Queue.NoWakeupIsLost | src/common/bounded_threadsafe_queue.h:72-153 | Who sleeps, or is about to, while it could go on has a locked notify of the other side still to come, and its mutex is free for it. |
| SpscQueue.Queue.ProducerIsWoken | src/common/bounded_threadsafe_queue.h:148-152 | A producer asleep although there is room is awake after at most two actions of the consumer. |
| SpscQueue.Queue.ConsumerIsWoken | src/common/bounded_threadsafe_queue.h:102-106 | A consumer asleep although there is an item is awake after at most two actions of the producer. |
| SpscQueue.Queue.NeverBothAsleep | src/common/bounded_threadsafe_queue.h:72-153 | The two sides never sleep at the same time. |
| SpscQueue.Run | src/common/bounded_threadsafe_queue.h:72-153 | In every interleaving of calls, atomic actions and stray wake-ups the invariants hold and pops return the pushed values in order. |
| SharedQueue.SharedQueue.OneInside | src/common/bounded_threadsafe_queue.h:163-246 | However many threads contend for the mutexes, one is inside a push and one inside a pop. |
| SharedQueue.SharedQueue.StepPush | src/common/bounded_threadsafe_queue.h:163-176 | The holder of the write mutex does one action of the ring and unlocks when it returns; what it is told is what it published. |
| SharedQueue.SharedQueue.StepPop | src/common/bounded_threadsafe_queue.h:178-246 | The same for the reader, which alone is given the item. |
| SharedQueue.SharedQueue.Fair | src/common/bounded_threadsafe_queue.h:163-246 | What came out is a prefix of what went in; every thread was given exactly its share of it, in order, and its successful pushes are its share of what went in but for one it is still to hear of. |
| SharedQueue.Run | src/common/bounded_threadsafe_queue.h:163-246 | All this in every interleaving of any threads. |
| ShellGuard.Shell.DetectRemovableStorage | platform/xbox_uwp/Main.cpp:732-802 | Does nothing while an operation runs; otherwise waits as the one operation, the browser emptied, or has failed and says so. |
| ShellGuard.Shell.ScanSelectedLibrary | platform/xbox_uwp/Main.cpp:858-895 | Does nothing while an operation runs or without a folder; otherwise the list is empty and the scan waits as the one operation, or has failed and says so. |
| ShellGuard.Shell.PrepareSelectedStartup | platform/xbox_uwp/Main.cpp:1702-1722 | Starts an attempt with a new generation, or fails and says so, unless an operation runs or there is nothing to start. |
| ShellGuard.Shell.ResumeStartup | platform/xbox_uwp/Main.cpp:1722-1782 | A cancelled attempt changes no shell state, no flag and makes no session; a live one sees the list it started with and replaces no session. |
| ShellGuard.Shell.ResumeBrowsing | platform/xbox_uwp/Main.cpp:732-856 | A resumed browser operation waits on, or ends with a folder, none or a failure, or goes over to a scan as the only operation. |
| ShellGuard.Shell.ResumeScan | platform/xbox_uwp/Main.cpp:1257-1444 | A resumed scan waits on, or ends and stores the list it found with what can be played; a failure leaves the old list or as much of the new one as was stored. |
| ShellGuard.Shell.CancelStartup | platform/xbox_uwp/Main.cpp:1484-1496 | Back makes the running attempt stale and lowers both flags. |
| ShellGuard.Shell.OnKeyDown | platform/xbox_uwp/Main.cpp:1463-1600 | While an operation runs the games page takes no key but Back for a startup; no key makes a session or revives a cancelled attempt. |
| ShellGuard.Shell.OnSuspending | platform/xbox_uwp/Main.cpp:1788-1797 | Suspension cancels a startup but not a library operation. |
| ShellGuard.Shell.OneOperation | platform/xbox_uwp/Main.cpp:1702-1797 | At most one suspended coroutine still counts, and the flags tell which kind. |
| ShellGuard.Run | platform/xbox_uwp/Main.cpp:858-1797 | Over every order of keys, suspensions and resumptions at most one attempt is live, with the flags up, the list it started with and no session; and whatever resumes a cancelled attempt later changes no shell state, no flag and no session. |
| ShellGuard.CancelledForGood | platform/xbox_uwp/Main.cpp:1482-1797 | An attempt that was cancelled, or is over, is so ever after. |
| ShellGuard.CancelledIsHarmless | platform/xbox_uwp/Main.cpp:1722-1782 | No later resumption of a cancelled attempt writes shell state or flags or makes a session. |
| ShellGuard.LiveNoMore | platform/xbox_uwp/Main.cpp:1702-1797 | An attempt that is not live any more never is again. |
| ShellGuard.SessionsAreLive | platform/xbox_uwp/Main.cpp:1747-1750 | Every session comes from the resumption of an attempt that was never cancelled before. |

## Left out

- Truncated DEFLATE input: the decoder may read zeros past the end, so nothing is promised for streams that end early.
- Adler-32, PNG chunk structure and CRC: the decoder reads neither checksum; chunks, palettes, transparency and colour conversion are not modelled.
- Inflate.ZBuf.Zexpand: reallocation is taken to succeed, because the failure is the system's.
- Decoding into a growing buffer is modelled for a positive initial size only; doubling zero never ends.
- HuffmanTable.ZbuildHuffman: the table arrays are filled in place and then handed on as one value.
- PngDecode.CreatePngImageRaw: allocation is taken to succeed, the two filter rows are two arrays and the output grows row by row.
- PngImage.ExpandRow: eight-bit rows with an added alpha sample are copied first and expanded in place, where the code reads the filter row directly.
- The SIMD kernels, the other image formats and the AVX branches of the bit array; in the backward search the AVX comparison differs from the scalar loop.
- AES buffers that overlap each other: inputs are values, outputs are separate arrays.
- Gcm.EncryptGcm: empty data is taken to be copied as nothing, where the code forms the address of a first byte that does not exist.
- Distances that reach beyond the window a zlib header declares: the decoder takes them, and so does the model.
- Gcm.GctrBytes: the block count is computed in integers, where the code rounds a floating-point quotient up.
- Gcm.Inc32Adds: the counter is bytes, where the code goes through a bit string.
- Every Direct3D call but its effect on states, memory, tickets and failure.
- CommandEncoder.Encoder.ClearColor: contents after a clear or a resolve are not modelled, states are.
- VideoCoreBridge.Bridge.CreateLinearFrame: the device's footprint for a BGRA8 texture is taken to have one row per line and four bytes per pixel.
- Statistics counters of the encoder and the bridge, coloured markers and the unsupported requests, which only count and refuse.
- The descriptor arena, which only counts up.
- ResourceAllocator.Allocator.Create: the size checks of the two public creation calls are modelled in the device context, where they guard the bridge.
- SpscQueue.Run: steps are sequentially consistent; unlocking is joined with the test before it; a stop is a pop that returns without an item.
- SharedQueue.Run: which of several waiting threads gets a mutex next is free, so nothing is said about fairness.
- VideoCoreBridge.Bridge.Elsewhere: lists of others are taken to keep off what the bridge holds or tracks, which only the shell's own structure ensures.
- ShellGuard.Shell.PrepareSelectedStartup: the generation is unbounded, where the code counts modulo 2^64; reports, rendering and storage are free choices.
