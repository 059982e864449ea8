# Verified models of the CAuth core

The project models the parts of the CAuth core whose correctness rests on state, arithmetic or formats, and proves
what they promise. Each `.dfy` file holds one component.

- **AES-256 decryption** (`galois_field`, `aes_tables`, `aes_cipher`, `aes_decrypt`, `aes_known_answer`). The
  program only decrypts: the first block is the encrypted vector, the rest is CBC with PKCS#7 padding. The forward
  cipher, CBC and the padding are written down from sections 4.2, 5.1 and 5.2 of FIPS 197, section 6.2 of NIST SP
  800-38A and section 6.3 of RFC 5652; the in-place decryption is proved to be their exact inverse, down to the
  512 entries of the program's two tables, and the example of FIPS 197 is worked through round by round.
- **SHA-1** (`sha1_spec`, `sha1_hasher`, `sha1_known_answer`). The streaming hasher with its 64-byte buffer is
  proved to compute the one-shot definition of FIPS 180-4, however the message is cut, and the definition to give
  the standard's example.
- **Base64** (`base64`). The encoder, the block decoder and the accumulator decoder with its 32-bit wrap-around,
  and exactly when the two decoders agree, over all texts.
- **Sessions** (`grouping`, `auth_session`, `decimal`, `auth_session_codec`, `auth_session_layouts`,
  `auth_session_format`). The session repository with one session per slot, its lookups, the representatives of
  its accounts, and the versioned binary formats, the present one and the older ones, byte by byte.
- **Checkpoints and prepared file writes** (`transfer_checkpoint`, `transfer_resume`, `transfer_format`,
  `file_system`, `file_write`, `file_write_runs`). A write goes to a temporary file that replaces the destination
  when it is complete; a state file lets a later write go on where it was left. Files are a map from paths to
  bytes. Every operation may fail, and the file system keeps every state that its files have been in: a crash
  leaves any one of them behind. The download of a file in chunks is modelled with its caller's pauses,
  cancellations and failures, and so is any sequence of crashing downloads.
- **Route health** (`endpoint_route_cache`, `endpoint_ranking`). The cache of attempts agrees with a log of them,
  and ranking returns the only order by its composite key.
- **Background tasks** (`background_task`, `task_registry`, `task_program`). Workers, polls, pauses, cancellations
  and disposals take their atomic steps in any order. A section that holds a task's lock is one step; so is one
  access to an atomic variable. The runs are sequences of such steps on values; every execution of the objects is
  one of them. The cloud and the depot tasks follow the same protocol and differ in the texts that they show.

Integers are unbounded in the models; where the program's width matters it is written out: the 32-bit accumulator,
the 64-bit lengths, handles, seconds and scores, the saturating 32-bit counts. The clock of the sessions has 64
bits and any resolution from seconds to nanoseconds, since that depends on the platform.

Where a property does not hold for all inputs, it is stated with the exact condition:
`Base64.BlockDecodeUndoesEncode` and `Base64.DecodersAgree`, `AuthSessionCodec.SessionRoundTrips`,
`AuthSessionCodec.V3IsCanonical`, `AuthSessionCodec.StoreIsCanonical` and `AuthSessionCodec.RepositoryRoundTrips`,
`TransferCheckpoint.CheckpointRoundTrips` and `TransferResume.ResumeStateRoundTrips`,
`FileWriteRuns.StateIsRecognised`, `FileWriteRuns.TellableIsExact`, `FileWriteRuns.AlwaysTellable`,
`FileWriteRuns.SplitTokenTells` and `FileWriteRuns.PauseThenFinish`, `EndpointRouteCache.CacheKeysAgree`,
`EndpointRouteCache.ByCacheKeyIsAbout` and `EndpointRouteCache.ScoreIsNotMonotone`,
`TaskRegistry.FlagsAreLastStores`, `TaskRegistry.CrossingRequests` and `TaskRegistry.StatusStays`. Instances where
such a property fails are `EndpointRouteCache.NewlineMixesEndpoints`, `FileWriteRuns.TornTokenIsTaken`,
`FileWriteRuns.PauseUnderSplitToken`, `TaskRegistry.CrossedRequests` and `TaskRegistry.StatusIsNotSettled`.

`dafny verify dfyconfig.toml` checks everything.

## Model

| member | source | states |
|---|---|---|
| GaloisField.TimesIsRemainder | src/core/crypto/aes.cpp:73-85 | the byte product that the doubling loop computes is the remainder of the polynomial product by x^8+x^4+x^3+x+1 (section 4.2 of FIPS 197), for all pairs of bytes |
| GaloisField.RemainderIsUnique | src/core/crypto/aes.cpp:73-85 | at most one byte is such a remainder, so the product is determined by the polynomials alone |
| GaloisField.TimesLeftLinear | src/core/crypto/aes.cpp:73-85 | the product is XOR-linear in its first factor |
| GaloisField.TimesRightLinear | src/core/crypto/aes.cpp:73-85 | the product is XOR-linear in its second factor |
| GaloisField.TimesAssociates | src/core/crypto/aes.cpp:73-85 | the product is associative |
| AesDecrypt.MultiplyBytes | src/core/crypto/aes.cpp:73-85 | the loop ends and returns the product in GF(2^8) for every pair of bytes, the loop's partial result plus the product of what is left being invariant |
| AesTables.SBoxIsStandard | src/core/crypto/aes.cpp:40-61 | each of the 256 entries of the S-box table is the affine image of the inverse in GF(2^8) (section 5.1.1 of FIPS 197) |
| AesTables.EveryByteSubstitutesWell | src/core/crypto/aes.cpp:40-61 | substituting by the S-box is the standard's substitution, and the inverse table undoes it, for every byte |
| AesTables.EveryByteInverseSubstitutesWell | src/core/crypto/aes.cpp:17-38 | the S-box undoes the inverse table, for every byte |
| AesTables.RconIsPowerOfX | src/core/crypto/aes.cpp:63-66 | each round constant is the power of x that section 5.2 of FIPS 197 asks for |
| AesDecrypt.AddRoundKeyInPlace | src/core/crypto/aes.cpp:87-96 | the two nested loops add the round key of the given round, column by column, in place |
| AesDecrypt.InvSubBytesInPlace | src/core/crypto/aes.cpp:98-104 | every byte of the state goes through the inverse table, in place |
| AesDecrypt.InvShiftRowsInPlace | src/core/crypto/aes.cpp:106-127 | the in-place shifts compute the inverse row shift of the old state |
| AesDecrypt.InvMixColumnsInPlace | src/core/crypto/aes.cpp:129-144 | the in-place products are the inverse mixing matrix applied to every column of the old state |
| AesCipher.MixColumnInverts | src/core/crypto/aes.cpp:129-144 | mixing and inverse mixing of a column undo each other, in both orders, for every column |
| AesCipher.MixColumnsInverts | src/core/crypto/aes.cpp:129-144 | the same for every state |
| AesCipher.MixColumnsAreProducts | src/core/crypto/aes.cpp:129-144 | mixing a column multiplies it by 3x^3 + x^2 + x + 2 modulo x^4 + 1, unmixing by bx^3 + dx^2 + 9x + e (section 4.3 of FIPS 197), for every column |
| AesCipher.SubBytesInverts | src/core/crypto/aes.cpp:98-104 | byte substitution and its inverse undo each other, in both orders, for every state |
| AesDecrypt.RotWordInPlace | src/core/crypto/aes.cpp:146-152 | the word is rotated in place as in section 5.2 of FIPS 197 |
| AesDecrypt.SubWordInPlace | src/core/crypto/aes.cpp:154-158 | the S-box is applied to each byte of the word in place |
| AesDecrypt.GenerateWord | src/core/crypto/aes.cpp:165-190 | one pass of the key schedule loop appends the next word of the standard's key expansion |
| AesDecrypt.ExpandKey | src/core/crypto/aes.cpp:160-191 | the 240 bytes that the loop fills are the key expansion of section 5.2 of FIPS 197, for every 32-byte key |
| AesDecrypt.DecryptBlock | src/core/crypto/aes.cpp:193-221 | the 14-round loop over the state array computes the inverse cipher, for every block and every 240-byte schedule |
| AesCipher.UndoesRounds | src/core/crypto/aes.cpp:203-218 | by induction over the rounds, the inverse rounds undo the cipher's |
| AesCipher.RedoesRounds | src/core/crypto/aes.cpp:203-218 | by induction over the rounds, the cipher's rounds undo the inverse ones |
| AesCipher.CipherInverts | src/core/crypto/aes.cpp:193-221 | the decryption of a block is the inverse of the cipher of section 5.1 of FIPS 197, in both orders, for every block and every 240-byte schedule |
| AesKnownAnswer.CipherOfExample | src/core/crypto/aes.cpp:160-221 | the AES-256 example of appendix C.3 of FIPS 197: all 60 words of the key schedule and the state after every round lead to the cipher block 8ea2b7ca516745bfeafc49904b496089 |
| AesCipher.CbcAppends | src/core/crypto/aes.cpp:271-279 | CBC encryption (section 6.2 of NIST SP 800-38A) of one more block continues with the last cipher block |
| AesCipher.CbcIsInjective | src/core/crypto/aes.cpp:271-279 | texts with the same CBC encryption are the same |
| AesCipher.CbcBlocks | src/core/crypto/aes.cpp:268-279 | each block of a CBC ciphertext, deciphered, is the block of the text added to the cipher block before it, or to the vector |
| AesDecrypt.DecryptChain | src/core/crypto/aes.cpp:268-279 | the loop over the blocks returns the only text whose CBC encryption is the rest of the ciphertext |
| AesCipher.PadIsInjective | src/core/crypto/aes.cpp:233-251 | texts that agree after PKCS#7 padding (section 6.3 of RFC 5652) are the same |
| AesCipher.PadSpelled | src/core/crypto/aes.cpp:233-251 | padding adds as many bytes as complete the last block, 1 to 16, and each has that number as its value |
| AesDecrypt.RemovePkcs7Padding | src/core/crypto/aes.cpp:233-251 | it succeeds exactly for a text followed by n bytes of value n, 1 to 16, and then returns that text; otherwise the bytes stay and the message is the one of the failing test |
| AesCipher.EnvelopeIsInjective | src/core/crypto/aes.cpp:255-286 | no two pairs of vector and plain text have the same envelope: encrypted vector, then CBC of the padded text |
| AesCipher.EnvelopeBlocks | src/core/crypto/aes.cpp:255-286 | the blocks of an envelope: the first one deciphers to the vector, and each later one, deciphered and added to the one before it or for the first to the vector, is a block of the padded text |
| AesDecrypt.Aes256EcbThenCbcDecryptPkcs7 | src/core/crypto/aes.cpp:255-286 | for every key and every ciphertext it succeeds with p exactly if the ciphertext is the envelope of p under some vector, the empty text included; every other input is refused, with one of the two size errors or, for the padded text that it encloses, with the message of the failing padding test |
| Sha1.ChooseForms | src/core/hash/sha1.cpp:97-99 | the code's selection function for rounds 0 to 19 is Ch of section 4.1.1 of FIPS 180-4 |
| Sha1.MajorityForms | src/core/hash/sha1.cpp:103-105 | the code's selection function for rounds 40 to 59 is Maj of section 4.1.1 |
| Sha1.SelectTurn | src/core/hash/sha1.cpp:94-109 | the branches on the round number choose the standard's function and constant |
| Sha1.ExpandWords | src/core/hash/sha1.cpp:79-86 | the two loops fill in the message schedule of section 6.1.2 |
| Sha1.ProcessBlock | src/core/hash/sha1.cpp:77-124 | the state array is updated in place to the standard's compression of the old state with the block |
| Sha1.WriteU64Be | src/core/hash/sha1.cpp:21-26 | the eight bytes are the big-endian digits of the 64-bit number |
| Sha1Spec.HashBlocksAppends | src/core/hash/sha1.cpp:30-48 | hashing blocks one after the other is hashing them at once |
| Sha1Spec.BigEndianValue | src/core/hash/sha1.cpp:21-26 | the big-endian digits have the value of the number |
| Sha1Spec.LengthFieldIsLength | src/core/hash/sha1.cpp:50-72 | below 2^61 bytes, the length field is the length in bits with nothing cut off |
| Sha1Spec.ZeroCountIsLeast | src/core/hash/sha1.cpp:50-72 | the number of zero bytes is the least that fills a block (section 5.1.1) |
| Sha1KnownAnswer.ConstantsAreRoots | src/core/hash/sha1.cpp:94-109 | the constant of each round is the integer part of 2^30 times the square root of 2, 3, 5 or 10 |
| Sha1KnownAnswer.Sha1OfExample | src/core/hash/sha1.cpp:77-130 | the example of FIPS 180-4, through all 80 words and turns: SHA-1 of "abc" is a9993e364706816aba3e25717850c26c9cd0d89d |
| Sha1.PaddedInOneBlock | src/core/hash/sha1.cpp:52-66 | with at most 55 bytes in the buffer, one last block completes the padding of section 5.1.1 |
| Sha1.PaddedInTwoBlocks | src/core/hash/sha1.cpp:52-66 | with 56 to 63 bytes in the buffer, two last blocks do |
| Sha1.Sha1Hasher.constructor | src/core/hash/sha1.cpp:30-48 | a new hasher has been fed nothing and has the initial hash value |
| Sha1.Sha1Hasher.Update | src/core/hash/sha1.cpp:30-48 | the fed bytes grow by the data unless the hasher has finished; state, buffer, buffer size below 64 and total size track the fed bytes |
| Sha1.Sha1Hasher.PadAndCompress | src/core/hash/sha1.cpp:50-66 | the buffered tail is padded and compressed, in one or two blocks, and the state becomes the final hash value of all that was fed |
| Sha1.Sha1Hasher.Finish | src/core/hash/sha1.cpp:50-75 | the digest is the FIPS 180-4 SHA-1 of everything that was fed, at the first call and at later ones |
| Sha1.Sha1Digest | src/core/hash/sha1.cpp:126-130 | the one-shot function returns the same SHA-1 |
| Sha1.DigestOfChunks | src/core/hash/sha1.cpp:30-75 | however a message is cut into updates, the digest is that of the whole message, and later updates and finishes leave it as it is |
| Sha1.Sha1Matches | src/core/hash/sha1.cpp:145-152 | it holds exactly if the expected bytes are the SHA-1 of the bytes |
| Base64.EncodeBytes | src/ffi/steam_auth.cpp:51-71 | the loop over groups of three returns the encoding of section 4 of RFC 4648 |
| Base64.MasksChangeNothing | src/ffi/steam_auth.cpp:64-67 | the masks after the shifts remove nothing that is there |
| Base64.AlphabetIsStandard | src/ffi/steam_auth.cpp:52-53 | the alphabet is table 1 of RFC 4648, by character codes |
| Base64.OtherCharacters | src/core/encoding/base64url.cpp:22-24 | besides the alphabet exactly '-' and '_' are decoded, as 62 and 63, and exactly blank, tab and the line breaks are skipped |
| Base64.EncodingExamples | src/ffi/steam_auth.cpp:51-71 | the examples of section 10 of RFC 4648 for one, two, three and six letters |
| Base64.SextetsAppend | src/core/encoding/base64url.cpp:7-33 | one more sextet completes at most one byte of the decoded bytes, and it is made of this sextet and the one before |
| Base64.ShiftedKeepsLowBits | src/core/encoding/base64url.cpp:25-25 | the 32-bit wrap-around of the accumulator never touches the bits that are still needed |
| Base64.EmittedByteIsCompleted | src/core/encoding/base64url.cpp:26-30 | the byte that is emitted is the one that the sextet completes, whatever has been shifted out |
| Base64.Base64UrlDecode | src/core/encoding/base64url.cpp:7-33 | the accumulator loop decodes exactly the sextets before the first '=', and fails exactly on another character, for every text |
| Base64.UrlDecodeFails | src/core/encoding/base64url.cpp:18-25 | the accumulator decoder fails exactly at a character of neither alphabet, not white space, before the first '=' |
| Base64.Normalize | src/ffi/steam_auth.cpp:83-103 | spaces are dropped, '-' and '_' are replaced, and the text is padded to a multiple of four |
| Base64.DecodeOneBlock | src/ffi/steam_auth.cpp:108-124 | one block of four gives one to three bytes, or fails |
| Base64.Base64Decode | src/ffi/steam_auth.cpp:73-127 | the loop over blocks decodes the normalized text block by block, for every text |
| Base64.UrlDecodeUndoesEncode | src/core/encoding/base64url.cpp:7-33 | decoding with the accumulator what was encoded gives the bytes back, for every byte string |
| Base64.BlockDecodeUndoesEncode | src/ffi/steam_auth.cpp:51-127 | the block decoder gives the bytes back exactly if there are any |
| Base64.DecodersAgree | src/core/encoding/base64url.cpp:7-33 | on every text the two decoders agree exactly if it is not empty and either a character before its first '=' is in neither alphabet, or what comes from there on is '=' and white space only and, with n alphabet characters before it, it has no '=' if n is a multiple of 4, else at most 4 - n % 4, n % 4 not being 1 |
| Grouping.FirstKeysOccur | src/core/session/auth_session.cpp:111-125 | the listed keys are exactly those that occur, each once |
| Grouping.FirstKeysInOrder | src/core/session/auth_session.cpp:111-125 | they are listed in the order of their first occurrence |
| Grouping.MergeAllRepresents | src/core/session/auth_session.cpp:111-125 | merging one after the other yields one winner per key, in the order of the keys' first occurrence |
| Grouping.RepresentationIsUnique | src/core/session/auth_session.cpp:111-125 | there is only one such list |
| Grouping.DistinctIsMerged | src/core/session/auth_session.cpp:143-150 | a list with distinct keys is not changed by merging it |
| AuthSessions.AuthSessionRepository.Find | src/core/session/auth_session.cpp:97-109 | the loop returns the latest session of the account, the last of those with the latest time |
| AuthSessions.AuthSessionRepository.Upsert | src/core/session/auth_session.cpp:111-125 | a valid session replaces that of its slot, or is added at the end; an invalid one changes nothing |
| AuthSessions.AuthSessionRepository.Normalize | src/core/session/auth_session.cpp:143-150 | the sessions become the normal form of the old ones |
| AuthSessions.AuthSessionRepository.Remove | src/core/session/auth_session.cpp:127-141 | all sessions of the account go and the rest is normalised, exactly if there were any, which the result tells |
| AuthSessions.NormalizedIsNormal | src/core/session/auth_session.cpp:143-150 | a normal form has only valid sessions, one per slot of provider, subject and type |
| AuthSessions.NormalizedIffNormal | src/core/session/auth_session.cpp:143-150 | normalising changes nothing exactly if the form is normal; so it is idempotent |
| AuthSessions.NormalizedRepresents | src/core/session/auth_session.cpp:143-150 | the normal form has the last valid session of each slot, at the place of the slot's first valid session |
| AuthSessions.WinnerIsLast | src/core/session/auth_session.cpp:111-125 | the session that wins a slot is the last valid one of the slot |
| AuthSessions.UpsertKeepsNormal | src/core/session/auth_session.cpp:111-125 | an upsert keeps the normal form, so that the normalisation at the end of decoding changes nothing |
| AuthSessions.UpsertLookups | src/core/session/auth_session.cpp:111-125 | an upsert changes no lookup of another account |
| AuthSessions.LatestIsLatest | src/core/session/auth_session.cpp:97-109 | what is found is at a position where no session of the account is later, nor as late further on |
| AuthSessions.RemovedLookups | src/core/session/auth_session.cpp:127-141 | removal makes the lookup of the account fail and keeps all others |
| AuthSessions.RemoveFromNormal | src/core/session/auth_session.cpp:127-141 | removal from a normal form leaves one, with exactly the account deleted |
| AuthSessions.AccountRepresentatives | src/ffi/core.cpp:86-107 | the loop returns, per account in the order of first occurrence, its latest session |
| AuthSessions.RepresentativesAreLookups | src/ffi/core.cpp:86-107 | there is exactly one entry per distinct account, in the order of first occurrence, and it is what the lookup of the account finds, with the last winning among equal times |
| AuthSessions.FoundByFields | src/core/session/auth_session.cpp:97-109 | on the fields: a lookup finds the newest, and last, session with this provider and subject, exactly if there is one |
| AuthSessions.UpsertByFields | src/core/session/auth_session.cpp:14-44 | on the fields: without provider, subject or refresh token nothing happens; else the first session with the same provider, subject and type is replaced, or the session comes last |
| AuthSessions.NormalizedByFields | src/core/session/auth_session.cpp:143-150 | on the fields: a normal form holds only given sessions with provider, subject and refresh token, no two with the same provider, subject and type, and of those the last of each |
| AuthSessions.RemovalByFields | src/core/session/auth_session.cpp:127-141 | on the fields: what is kept differs in provider or subject, and something goes exactly if a session has both |
| AuthSessions.AccountsByFields | src/ffi/core.cpp:86-107 | on the fields: no two entries have the same provider and subject, and each session has an entry with both that is not older |
| Decimal.DecimalRoundTrips | src/core/session/auth_session.cpp:81-95 | a decimal number of at most 2^64-1 parses back to itself, whole or as std::stoull reads it |
| Decimal.StoullReads | src/core/transfer/transfer_checkpoint.cpp:67-74 | std::stoull reads white space, at most one sign, digits, and ignores what follows; without digits or above 2^64-1 it fails, and a minus sign gives the number modulo 2^64 |
| AuthSessionCodec.AppendNumber | src/core/session/auth_session_codec.cpp:26-36 | the shift loop appends the little-endian bytes of the number |
| AuthSessionCodec.ReadNumber | src/core/session/auth_session_codec.cpp:38-60 | reading succeeds exactly if enough bytes are left, never indexes out of range, and keeps the offset within the bytes |
| AuthSessionCodec.ReadText | src/core/session/auth_session_codec.cpp:72-81 | the same for a length-prefixed string |
| AuthSessionCodec.AppendSession | src/core/session/auth_session_codec.cpp:158-169 | a session is appended, or refused for a string of more than 2^32-1 bytes |
| AuthSessionCodec.ReadSession | src/core/session/auth_session_codec.cpp:171-187 | a session is read as the layout says, with the offset kept within the bytes |
| AuthSessionCodec.EncodeAuthSession | src/core/session/auth_session_codec.cpp:254-270 | the V3 bytes of the session, or none if a string is too long |
| AuthSessionLayouts.V1ReadsBack | src/core/session/auth_session_codec.cpp:83-108 | a blob of magic, Steam id, seconds, two strings and perhaps a third is read as the Steam session with that id, those seconds, account name, refresh token and, if it is there, access token |
| AuthSessionLayouts.V1IsLayout | src/core/session/auth_session_codec.cpp:83-108 | and every V1 blob that is accepted has this layout, with nothing behind it |
| AuthSessionLayouts.V1Migrates | src/core/session/auth_session_codec.cpp:83-108 | the subject id of an accepted V1 blob parses back to its Steam id, and the session survives encoding and decoding as a repository, with its time if the clock can represent its seconds |
| AuthSessionLayouts.V2ReadsBack | src/core/session/auth_session_codec.cpp:110-133 | a blob of magic, seconds, four strings and perhaps a fifth is read as the session of that provider, subject, account name, refresh token and, if it is there, access token |
| AuthSessionLayouts.V2IsLayout | src/core/session/auth_session_codec.cpp:110-133 | and every V2 blob that is accepted has this layout, with nothing behind it |
| AuthSessionLayouts.V2Migrates | src/core/session/auth_session_codec.cpp:110-133 | a valid V2 session survives being saved and loaded as a repository, with its time if the clock can represent its seconds |
| AuthSessionCodec.DecodeV3 | src/core/session/auth_session_codec.cpp:135-156 | the V3 layout, for every blob |
| AuthSessionCodec.DecodeAuthSession | src/core/session/auth_session_codec.cpp:272-299 | the decoder chosen by the magic, and refusal of what is not valid, for every blob |
| AuthSessionCodec.EncodeRepository | src/core/session/auth_session_codec.cpp:301-320 | the bytes of the normal form, or none if it cannot be encoded; the state itself becomes normal only in the copy |
| AuthSessionCodec.DecodeStore | src/core/session/auth_session_codec.cpp:189-250 | a store with at most 1024 sessions and nothing behind the last is read and normalised; every other blob is refused |
| AuthSessionLayouts.StoreV1IsStoreV2 | src/core/session/auth_session_codec.cpp:189-220 | for every V1 store: two strings, which nothing is made of, and then what a V2 store is; the same sessions are decoded, and the same blobs refused |
| AuthSessionLayouts.StoreV1ReadsBack | src/core/session/auth_session_codec.cpp:189-250 | any two strings may stand between the V1 magic and the body of a store |
| AuthSessionCodec.DecodeRepository | src/core/session/auth_session_codec.cpp:322-348 | store formats, or a single session of an older format, normalised |
| AuthSessionCodec.StoredTime | src/core/session/auth_session_codec.cpp:137-150 | a time goes through the unsigned 64-bit seconds of the format and comes back truncated towards zero to whole seconds, negative times included |
| AuthSessionCodec.StoredSeconds | src/core/session/auth_session_codec.cpp:137-150 | stored seconds come back the same exactly if the clock can represent them, for a clock of any resolution from seconds to nanoseconds |
| AuthSessionCodec.SessionReadsBack | src/core/session/auth_session_codec.cpp:158-187 | what was appended for a session is read back, with its time truncated, wherever it stands in a blob |
| AuthSessionCodec.SessionIsCanonical | src/core/session/auth_session_codec.cpp:171-187 | every accepted session layout is what appending the session would write, if its seconds are representable |
| AuthSessionCodec.SessionRoundTrips | src/core/session/auth_session_codec.cpp:254-299 | encoding and decoding a session gives it back with whole seconds exactly if it is valid and its strings have 32-bit lengths |
| AuthSessionCodec.V3IsCanonical | src/core/session/auth_session_codec.cpp:254-299 | an accepted V3 blob re-encodes to itself exactly if its seconds are representable by the clock, whatever its resolution |
| AuthSessionCodec.EncodingIsInjective | src/core/session/auth_session_codec.cpp:254-270 | sessions with the same encoded bytes are the same up to the fraction of a second |
| AuthSessionCodec.EncodedStoreParses | src/core/session/auth_session_codec.cpp:222-250 | the bytes of a list of valid sessions parse to that list with stored times |
| AuthSessionCodec.StoreIsCanonical | src/core/session/auth_session_codec.cpp:222-250 | an accepted V2 store blob re-encodes to itself exactly if the list that it holds is normal and the seconds of every session in it are representable |
| AuthSessionCodec.RepositoryRoundTrips | src/core/session/auth_session_codec.cpp:301-348 | decoding an encoded repository gives its normal form with whole seconds, exactly if the normal form has at most 1024 sessions and their strings have 32-bit lengths; it holds for every time |
| AuthSessionFormat.EncodedByFields | src/core/session/auth_session_codec.cpp:158-169 | byte by byte: a session is written as its seconds, then provider, subject, account name, refresh token, access token and type, each after its length, numbers with their lowest byte first |
| AuthSessionFormat.V3ReadsBack | src/core/session/auth_session_codec.cpp:135-156 | what has this layout after its magic is read with each string in its field, as a session and as a repository of one, exactly if provider, subject and refresh token are not empty |
| AuthSessionFormat.V3IsLayout | src/core/session/auth_session_codec.cpp:135-156 | every accepted V3 blob has this layout, with the strings of its session |
| AuthSessionFormat.V2ByFields | src/core/session/auth_session_codec.cpp:110-133 | the same for a V2 blob, which has no type and perhaps no access token |
| AuthSessionFormat.V1ByFields | src/core/session/auth_session_codec.cpp:83-108 | the same for a V1 blob, which has a Steam id in place of provider and subject |
| AuthSessionFormat.StoreByFields | src/core/session/auth_session_codec.cpp:222-250 | a normal list is stored as the magic, its length and its sessions in this layout, in order, and read as it is, but for the fractions of seconds, exactly if it has at most 1024 sessions |
| AuthSessionFormat.StoreV1ByFields | src/core/session/auth_session_codec.cpp:189-220 | a V1 store has two strings after its magic, and is read as the V2 store without them |
| AuthSessionFormat.SingleIsRepository | src/core/session/auth_session_codec.cpp:322-348 | a blob of a single session is read as the repository of that session |
| AuthSessionFormat.V3Example | src/core/session/auth_session_codec.cpp:135-156 | one V3 blob, with all its 58 bytes, and its session |
| TransferCheckpoint.LoadCheckpoint | src/core/transfer/transfer_checkpoint.cpp:40-90 | the line loop computes what the lines mean in order, or the error of the first bad one |
| TransferCheckpoint.SaveCheckpoint | src/core/transfer/transfer_checkpoint.cpp:92-123 | version, token, byte count and field lines are written in order |
| TransferFormat.SavedByLines | src/core/transfer/transfer_checkpoint.cpp:92-123 | character by character: what is written for any token, count and field |
| TransferFormat.MoreFieldLines | src/core/transfer/transfer_checkpoint.cpp:113-116 | each further field adds a line of the same form |
| TransferFormat.FirstLineMeans | src/core/transfer/transfer_checkpoint.cpp:50-58 | an empty file is truncated, and any other first line than cauth-transfer-v1 is an unsupported version |
| TransferFormat.LinesMean | src/core/transfer/transfer_checkpoint.cpp:60-87 | a token or a count takes the place of an earlier one, an empty line is nothing, and an unknown line is refused |
| TransferFormat.FieldLinesMean | src/core/transfer/transfer_checkpoint.cpp:75-82 | a field is split at its first '=' and added, and refused without one |
| TransferCheckpoint.CheckpointRoundTrips | src/core/transfer/transfer_checkpoint.cpp:40-123 | a saved checkpoint loads unchanged exactly if token and values have no newline, and keys no newline and no '=' |
| TransferCheckpoint.LoadedFits | src/core/transfer/transfer_checkpoint.cpp:40-90 | nothing else is ever loaded, whatever the file holds |
| TransferCheckpoint.TornHeader | src/core/transfer/transfer_checkpoint.cpp:92-123 | a state file that was not written to its end shows a byte count only together with the complete token |
| TransferCheckpoint.LoadSavedToken | src/core/transfer/transfer_checkpoint.cpp:40-123 | for every token: a saved checkpoint loads as what the lines of the token say, with the saved count, or is refused where they are |
| TransferCheckpoint.TornAnyHeader | src/core/transfer/transfer_checkpoint.cpp:92-123 | for every token: a state file that was not written to its end shows no byte count, or what the lines of a torn token say, or all that the lines of the token say and a count, or is refused with them |
| TransferCheckpoint.PlainTokenLines | src/core/transfer/transfer_checkpoint.cpp:60-90 | the lines of a token say just the token exactly if it has no newline |
| TransferCheckpoint.SplitTokenLines | src/core/transfer/transfer_checkpoint.cpp:60-90 | a token that reads like two token lines says the second one |
| TransferCheckpoint.TornSplitHeader | src/core/transfer/transfer_checkpoint.cpp:92-123 | and so does a file of it that was not written to its end, where it shows a byte count at all |
| TransferResume.FindAfterSet | src/core/transfer/transfer_checkpoint.cpp:130-150 | setting a field is seen by lookups of its key and by no other |
| TransferResume.FindAfterErase | src/core/transfer/transfer_checkpoint.cpp:130-159 | erasing a key is seen by lookups of it and by no other |
| TransferResume.SetInPlace | src/core/transfer/transfer_checkpoint.cpp:140-150 | setting replaces the field where the key first is, or adds one at the end |
| TransferResume.EraseEach | src/core/transfer/transfer_checkpoint.cpp:152-159 | erasing drops exactly the fields with the key, field by field |
| TransferResume.CheckpointState.Find | src/core/transfer/transfer_checkpoint.cpp:130-138 | the value of the first field with the key |
| TransferResume.CheckpointState.Set | src/core/transfer/transfer_checkpoint.cpp:140-150 | the first field with the key is replaced in place, or one is added at the end |
| TransferResume.CheckpointState.Erase | src/core/transfer/transfer_checkpoint.cpp:152-159 | all fields with the key go, in order |
| TransferResume.SaveResumeState | src/core/transfer/transfer_resume.cpp:71-87 | the typed state goes into fields, zeros and empty tokens left out |
| TransferResume.LoadResumeState | src/core/transfer/transfer_resume.cpp:40-69 | the typed state read from fields, with the errors of unreadable numbers |
| TransferResume.ResumeStateRoundTrips | src/core/transfer/transfer_resume.cpp:40-87 | the typed state survives saving and loading, though zero and empty fields are not written, exactly if its tokens have no newline |
| TransferResume.LegacyNamesAreRead | src/core/transfer/transfer_resume.cpp:8-18 | a field under its former name is read where the present name is absent; where that is there it wins, whatever the former one says |
| TransferFormat.ReadByNames | src/core/transfer/transfer_resume.cpp:40-69 | group, index and item are read from the fields of their present or of their former names, and a number that cannot be read is refused |
| TransferFormat.WrittenByNames | src/core/transfer/transfer_resume.cpp:71-87 | they are written to the fields of their present names, in order, if not zero or empty |
| FileWrite.PathsDiffer | src/core/platform/file_write.cpp:30-35 | temporary file, state file and destination are three different files, named with the suffixes .cauthdownload, or the one that is asked for, and .resume; only a non-atomic write has its file in common with the destination |
| FileWrite.ReadResumeState | src/core/platform/file_write.cpp:81-92 | the state that the file records, or a failure |
| FileWrite.PrepareFileWrite | src/core/platform/file_write.cpp:306-429 | it resumes with the token and the recorded count, which is the size of the temporary file or zero, or starts with temporary and state file removed; it skips or fails exactly for an existing destination that is not resumed; a crash on the way leaves a state in which they are removed in order; and if no operation fails it resumes exactly if the write is resumable |
| FileWrite.PreparedFileWrite.TakeUpOrClear | src/core/platform/file_write.cpp:353-411 | the part between: the resume test, and the clearing of what is stale |
| FileWrite.PreparedFileWrite.ClearStalePartial | src/core/platform/file_write.cpp:366-384 | the state goes before the temporary file, in every state that a crash may leave |
| FileWrite.PreparedFileWrite.OpenBinaryOutput | src/core/platform/file_write.cpp:187-206 | the file is continued exactly if a write with a nonzero offset is resumed, else emptied; skipped and failed writes open nothing |
| FileWrite.PreparedFileWrite.WriteAll | src/core/platform/file_write.cpp:208-236 | on success the destination holds what was resumed followed by the bytes, and neither temporary nor state file is left; every state on the way is reached by allowed steps |
| FileWrite.PreparedFileWrite.CommitAtomicReplace | src/core/platform/file_write.cpp:94-129 | a destination that appeared is never replaced under the modes that forbid it |
| FileWrite.PreparedFileWrite.Commit | src/core/platform/file_write.cpp:238-261 | the destination becomes the whole temporary file or stays, in every state that a crash may leave |
| FileWrite.PreparedFileWrite.SaveResumeState | src/core/platform/file_write.cpp:263-278 | the state file records token and count, or is torn; if resuming is not allowed, there is no token, or the write is skipped, nothing happens |
| FileWrite.PreparedFileWrite.ClearResumeState | src/core/platform/file_write.cpp:280-290 | the state file goes and the write is not resumable |
| FileWrite.PreparedFileWrite.DiscardPartial | src/core/platform/file_write.cpp:292-304 | state file and written file go, and only after that the write is no longer preserved; without a temporary file the written file is the destination |
| FileWrite.PreparedFileWrite.Cleanup | src/core/platform/file_write.cpp:176-185 | a committed, skipped or preserved write is dropped without a trace; any other leaves neither temporary nor state file if the removals succeed |
| FileWrite.PreparedFileWrite.Moved | src/core/platform/file_write.cpp:133-149 | the new write takes over everything, ownership included, and the old one owns nothing |
| FileWrite.PreparedFileWrite.MoveFrom | src/core/platform/file_write.cpp:151-172 | the write that was here is dropped as by its destructor, the other one is taken over, and it owns nothing any more; assignment to itself changes nothing |
| FileWriteRuns.StateIsRead | src/core/platform/file_write.cpp:66-92 | a state that was saved with any token is read back with its count and what the token is read as, or not at all |
| FileWriteRuns.TokenReadPlain | src/core/platform/file_write.cpp:66-92 | a token is read as itself exactly if it has no newline |
| FileWriteRuns.StateIsRecognised | src/core/platform/file_write.cpp:386-394 | a saved state is recognised under a token exactly if that is what the token it was saved with is read as |
| FileWriteRuns.TellableIsExact | src/core/platform/file_write.cpp:66-92 | no state that is saved with a token, torn or not and with any count, shows a count for other content exactly if that is so of the lines of the token, wherever they are cut off, and the token that they say stands for content that starts with its own: the states can be told; for content of at most 2^64-1 bytes, and the latter gives the former for any |
| FileWriteRuns.AlwaysTellable | src/core/platform/file_write.cpp:66-92 | for every token: its states can be told whatever the tokens stand for exactly if it has no newline, or its lines are refused and, wherever they are cut off, show no positive count |
| FileWriteRuns.TornTokenIsTaken | src/core/platform/file_write.cpp:66-92 | an instance: a token with a line of another token, a line of a count and a line that is refused is never read, but its state, torn before the last line, is taken up under the other token |
| FileWriteRuns.PlainTokenTells | src/core/platform/file_write.cpp:66-79 | the states of a token without newline can be told, whatever the tokens stand for |
| FileWriteRuns.SplitTokenTells | src/core/platform/file_write.cpp:66-79 | the states of a token that reads like two token lines can be told exactly if the second of them stands for content that starts with the token's own, content of any size |
| FileWriteRuns.CommittedIsSound | src/core/platform/file_write.cpp:238-261 | committing a complete temporary file leaves the destination with the whole content, or as it was |
| FileWriteRuns.StrippedIsSound | src/core/platform/file_write.cpp:176-185 | removing temporary or state file keeps every state sound |
| FileWriteRuns.StartedWorks | src/core/platform/file_write.cpp:187-206 | opening the output after preparing puts the file at the prefix of the content that the offset says |
| FileWriteRuns.ResolveResumeChunkIndex | src/steam/depot/steam_depot_application.cpp:500-517 | the chunk that starts at the offset, and none exactly if the offset is inside a chunk or behind the end |
| FileWriteRuns.StoreChunks | src/steam/depot/steam_depot_application.cpp:731-859 | for every token: after each chunk the file with what is pending for it is the content so far, and the state file has its size; and what is there can safely be taken up if the states of the token can be told; without failing operations the run ends as the first chunk says that does not come |
| FileWriteRuns.Download | src/steam/depot/steam_depot_application.cpp:640-880 | for every token, from any files that can safely be taken up: in every state that the files go through, the destination has its old content or the whole new one, and what is there can safely be taken up if the states of the token can be told; a completed download is in place with nothing left over; without failing operations only paused or exhausted downloads leave anything, and it can be taken up; without failing operations the first chunk that does not come decides: a pause or a lack of servers keeps exactly the chunks before it, to be taken up, a cancellation or an abort leaves nothing, and if all come the download completes; an existing destination that may not be replaced is skipped or fails |
| FileWriteRuns.DownloadWithCrashes | src/core/platform/file_write.cpp:386-411 | over any number of downloads to one destination, each with its own token and crashing at any moment, where the states of all tokens but the last can be told, the destination is what it was or the whole content of one of them, which may overwrite or found none, and no other file is touched |
| FileWriteRuns.ReachesMeans | src/core/platform/file_write.cpp:94-129 | job by job each leaves the destination or puts its content there, the latter only if it may; so an existing destination changes only by a job that may overwrite, and never goes |
| FileWriteRuns.DownloadAfterCrashes | src/core/platform/file_write.cpp:386-411 | an undisturbed download, with any token, after crashes under tokens whose states can be told ends with exactly its own content, and no temporary or state file |
| FileWriteRuns.PauseAfter | src/core/platform/file_write.cpp:263-278 | writing p after what is taken up, saving the size and preserving leaves both in the temporary file and their size in the state file |
| FileWriteRuns.FinishWith | src/core/platform/file_write.cpp:208-236 | preparing, writing s and committing gives what was resumable followed by s |
| FileWriteRuns.PauseThenFinish | src/core/platform/file_write.cpp:263-278 | pausing after p under one token and writing s under another commits what was there, p and s exactly if the first token is read as the other and resuming is allowed, and only s if not; so a token without newline is taken up under itself and no other |
| FileWriteRuns.PauseUnderSplitToken | src/core/platform/file_write.cpp:386-411 | the consequence for a token that reads like two token lines: finishing under the second one commits the contents of both, one after the other |
| FileWriteRuns.PerformAll | src/core/platform/file_write.cpp:94-129 | over any sequence of operations, with an output that is opened, written and closed at any time between them, whatever fails, each state follows by a step that keeps the destination or makes it the whole temporary file, the latter only if it may be replaced |
| FileWriteRuns.ExistingIsKept | src/core/platform/file_write.cpp:94-129 | so an existing destination is never replaced under the modes that forbid it |
| EndpointRouteCache.CacheKeysAgree | src/core/platform/endpoint_route_cache.cpp:33-38 | two endpoints have the same cache key exactly if they are the same, or one group starts with the other and a newline and what comes after it is moved from the key |
| EndpointRouteCache.CacheKeysDiffer | src/core/platform/endpoint_route_cache.cpp:33-38 | for groups without newline, cache keys are equal exactly for the same group and endpoint |
| EndpointRouteCache.NewlineMixesEndpoints | src/core/platform/endpoint_route_cache.cpp:33-38 | an instance: with a newline in a group two endpoints share an entry |
| EndpointRouteCache.ByCacheKeyIsAbout | src/core/platform/endpoint_route_cache.cpp:33-38 | the events under a cache key are those about the endpoint since the last clearing exactly if none of a colliding endpoint was logged since |
| EndpointRouteCache.PlainIsNotMixed | src/core/platform/endpoint_route_cache.cpp:33-38 | without newlines in groups none is |
| EndpointRouteCache.EndpointRouteCacheStorage.SnapshotAt | src/core/platform/endpoint_route_cache.cpp:42-77 | the snapshot is what the log tells about the endpoint at that time |
| EndpointRouteCache.EndpointRouteCacheStorage.TakeSnapshot | src/core/platform/endpoint_route_cache.cpp:42-77 | the same at the time of the clock |
| EndpointRouteCache.EndpointRouteCacheStorage.RecordSuccess | src/core/platform/endpoint_route_cache.cpp:79-90 | the entries agree with the log that has one more success, counts saturating at 2^32-1 |
| EndpointRouteCache.EndpointRouteCacheStorage.RecordFailure | src/core/platform/endpoint_route_cache.cpp:92-99 | the same for a failure |
| EndpointRouteCache.EndpointRouteCacheStorage.Clear | src/core/platform/endpoint_route_cache.cpp:101-104 | nothing is told of what was before |
| EndpointRouteCache.LastDecides | src/core/platform/endpoint_route_cache.cpp:54-59 | under a clock that never goes back, the last event of a kind is within a window exactly if any is |
| EndpointRouteCache.ToldIsRecent | src/core/platform/endpoint_route_cache.cpp:54-59 | a success or failure is recent exactly if any recorded one is at most 10 or 5 minutes old, and a latency is fresh exactly if a success is recent |
| EndpointRouteCache.ToldAttempts | src/core/platform/endpoint_route_cache.cpp:42-60 | the latency is that of the last success, zero without any, and the counts are the numbers of successes and failures up to 2^32-1 |
| EndpointRouteCache.ElapsedMilliseconds | src/core/platform/endpoint_route_cache.cpp:140-144 | the whole milliseconds of a duration, at least one, and at most what 64-bit nanoseconds allow |
| EndpointRouteCache.MeasuredScore | src/core/platform/endpoint_route_cache.cpp:62-75 | for latencies that are so measured the score never wraps around: latency and a penalty of 1500 for a recent or 250 for another failure, less 25 if more than that; the score of an endpoint without fresh latency is the worst |
| EndpointRouteCache.ScoreIsNotMonotone | src/core/platform/endpoint_route_cache.cpp:66-75 | a higher latency has a better score exactly if nothing is added for failures and only the higher one exceeds the bonus, by less than the lower one |
| EndpointRouteCache.TellAfter | src/core/platform/endpoint_route_cache.cpp:42-104 | after any run of requests and whatever time passes between them, the snapshot is what the log of the requests at their times tells, and only the part about the endpoint unless a colliding one is mixed in |
| EndpointRanking.PrecedesIsTotalOrder | src/core/platform/endpoint_route_cache.hpp:165-179 | the composite key is a strict total order on candidates with different indices |
| EndpointRanking.StableSort | src/core/platform/endpoint_route_cache.hpp:165-179 | the candidates in the order of the composite key, none lost and none added |
| EndpointRanking.RankingIsUnique | src/core/platform/endpoint_route_cache.hpp:165-179 | there is only one permutation that is strictly sorted by recent failure, fresh latency, score and index |
| EndpointRanking.RankingOrders | src/core/platform/endpoint_route_cache.hpp:165-179 | of two endpoints the one that comes first has no recent failure or both have one, then a fresh latency or both have none, then the lower score, and with all equal the earlier place |
| EndpointRanking.RankingAgain | src/core/platform/endpoint_route_cache.hpp:165-179 | the ranking of what is ranked is the identity |
| EndpointRanking.ProbeEndpoints | src/core/platform/endpoint_route_cache.hpp:138-163 | probes go in order to endpoints without fresh latency, at most as many as allowed not counting skipped ones, until cancelled; each is logged and its endpoint looked up again, and no other snapshot changes |
| EndpointRanking.RankEndpoints | src/core/platform/endpoint_route_cache.hpp:107-187 | the result is the endpoints in the only ranking by their last snapshots, spelled out by recent failure, fresh latency, score and place; one endpoint or none is returned as it is; exactly the endpoints without fresh latency are probed, while probes are left and none is cancelled or skipped |
| EndpointRanking.ArrangedIsPermutation | src/core/platform/endpoint_route_cache.hpp:181-186 | the ranked endpoints are the given ones, each as often |
| EndpointRanking.RankTwice | src/core/platform/endpoint_route_cache.hpp:107-187 | ranking again without probes and with the same snapshots changes nothing; and the snapshots are the same while the clock stands still |
| BackgroundTask.BackgroundTask.constructor | src/ffi/steam_cloud.cpp:73-104 | a new task is queued, idle, unfinished and without outcome |
| BackgroundTask.BackgroundTask.OnProgress | src/ffi/steam_cloud.cpp:246-263 | progress changes status, phase, target and counters and no outcome |
| BackgroundTask.BackgroundTask.Decide | src/ffi/steam_cloud.cpp:753-768 | the final section stores the result or report, sets the outcome bits by it, pause before cancellation, and shows status and message; an exception in it leaves some of that done |
| BackgroundTask.DecidedBits | src/ffi/steam_cloud.cpp:753-760 | a task has succeeded if its outcome is good, else was paused if "operation paused" occurs in the text that is judged, else canceled if "operation canceled" does |
| BackgroundTask.DecidedStatus | src/ffi/steam_cloud.cpp:761-768 | the status shown agrees with the bits, unless the operation has one of its own |
| BackgroundTask.DecidedMessage | src/ffi/steam_cloud.cpp:761-763 | the message is the operation's, for depot operations else its output, or else says what is complete or has failed; target, phase and counters stay |
| BackgroundTask.DecidedStored | src/ffi/steam_cloud.cpp:755-756 | pull and push store a result, verifications a report, other transfers neither |
| BackgroundTask.BackgroundTask.OnException | src/ffi/steam_cloud.cpp:398-411 | the handler resets the three bits and shows the failure |
| BackgroundTask.BackgroundTask.Finish | src/ffi/steam_cloud.cpp:414-414 | the last step of a worker changes nothing but that the task has finished |
| BackgroundTask.BackgroundTask.SetCancelRequested | src/ffi/steam_cloud.cpp:910-925 | the cancellation flag is one atomic variable |
| BackgroundTask.BackgroundTask.SetPauseRequested | src/ffi/steam_cloud.cpp:911-926 | the pause flag is another |
| BackgroundTask.BackgroundTask.ShowPause | src/ffi/steam_cloud.cpp:912-918 | a pause shows its status and phase, and its message only where there is none |
| BackgroundTask.BackgroundTask.ShowCancel | src/ffi/steam_cloud.cpp:927-933 | the same for a cancellation |
| BackgroundTask.BackgroundTask.Poll | src/ffi/steam_cloud.cpp:867-901 | a poll shows the fields as they are, and the task as active exactly if it has not finished |
| TaskRegistry.HandlesDiffer | src/ffi/steam_cloud.cpp:383-383 | starts less than 2^64 apart have different handles, and 2^64 starts later the handle comes again |
| TaskRegistry.HandlesCount | src/ffi/steam_cloud.cpp:383-383 | the first handle is 1, and each later one the next of the 2^64 |
| TaskRegistry.RegisteredStays | src/ffi/steam_cloud.cpp:384-391 | in every run without its disposal, a handle stays with the task that was registered under it first |
| TaskRegistry.Registry.TakeHandle | src/ffi/steam_cloud.cpp:383-383 | handles count up from 1 and wrap around |
| TaskProgram.Program.Register | src/ffi/steam_cloud.cpp:384-391 | registering a start and beginning its worker is the registering step of a run, on a handle in use too |
| TaskProgram.Program.Decide | src/ffi/steam_cloud.cpp:753-768 | the final section on the task object is the deciding step of a run, or the step that an exception in it makes |
| TaskProgram.Program.Find | src/ffi/steam_cloud.cpp:265-272 | finding a task and holding it is the finding step of a run |
| TaskProgram.Program.Step | src/ffi/steam_cloud.cpp:905-933 | each store, shown request and poll on the task that is held, registered still or not, is the controller's step of a run |
| TaskProgram.Program.Dispose | src/ffi/steam_cloud.cpp:935-938 | disposing is the disposing step of a run, which keeps the tasks that workers and controllers hold |
| TaskProgram.Program.Perform | src/ffi/steam_cloud.cpp:375-419 | every atomic step on the objects is one of the steps of a run |
| TaskProgram.Execute | src/ffi/steam_cloud.cpp:375-419 | every execution of the objects, in any order of steps, shows the observations of a run, so what holds in every run holds of it |
| TaskRegistry.RunHolds | src/ffi/steam_cloud.cpp:375-419 | the invariant of registry, workers, controllers and observations holds after every interleaving of atomic steps |
| TaskRegistry.PollsShowAtMostOne | src/ffi/steam_cloud.cpp:857-903 | no poll in any run shows more than one of succeeded, paused and canceled |
| TaskRegistry.InactiveIsFinal | src/ffi/steam_cloud.cpp:857-903 | once a poll shows a handle inactive, every later poll of the handle does, with the same bits, result, report, target and counters |
| TaskRegistry.FinalBitsAreExplained | src/ffi/steam_cloud.cpp:753-768 | the bits that a poll shows for an ended task are those of the result or report that it shows, or none |
| TaskRegistry.DisposedStaysInvalid | src/ffi/steam_depot.cpp:1795-1798 | a handle whose task was registered and disposed of is never found again until 2^64 starts after it, whatever else runs, unless a start that is 2^64 older is still to be registered |
| TaskRegistry.FlagsAreLastStores | src/ffi/steam_cloud.cpp:905-933 | in every run the flags of a task are those of the last store to each; exactly one is set exactly if the last stores to the two are by requests of one kind |
| TaskRegistry.FlagsFollowStores | src/ffi/steam_cloud.cpp:905-933 | the same from any state on; a flag without store stays |
| TaskRegistry.UndisturbedRequest | src/ffi/steam_cloud.cpp:905-933 | in every run, a request between whose stores no other stores to the task leaves exactly its own flag set |
| TaskRegistry.CrossingRequests | src/ffi/steam_cloud.cpp:905-933 | a pause and a cancellation that make their four stores in any order leave exactly one flag set exactly if the one that stores first is not the one that stores last |
| TaskRegistry.CrossedRequests | src/ffi/steam_cloud.cpp:905-933 | instances: a pause and a cancellation that cross leave both request flags set, or neither |
| TaskRegistry.TextsFollowRequests | src/ffi/steam_cloud.cpp:905-933 | in every run the texts of an ended task are what the requests shown on it make of them: the last gives status and phase, the first a message where there is none, and without any they stay |
| TaskRegistry.StatusStays | src/ffi/steam_cloud.cpp:857-933 | two polls of an ended task show the same status exactly if no request on it is shown in between or the last that is has that status; else the second shows that of the last |
| TaskRegistry.StatusIsNotSettled | src/ffi/steam_cloud.cpp:905-933 | in every run, pausing or cancelling an ended task changes the status that later polls show, but neither its bits nor its being inactive |

## Left out

- The HTTP, WebSocket, RSA and certificate code: it wraps system libraries.
- The command line, progress output, route listing records and the filling of foreign-function structures: plumbing without further properties.
- Login, connection management, depot manifests, the batch of all files and the cloud synchronisation plan: their logic is in protocols that are not part of this model. Of the callers of file writes only the download of one file is modelled; what a server delivers for a chunk is taken to be the chunk.
- Token parsing by substring search and the redacted account label: no grammar or promise to prove.
- Hexadecimal output of hashes.
- Error texts of the operating system: a failed file operation is modelled by its kind. The AES error messages are modelled as they are.
- Real threads, mutexes and memory orders: a critical section is one step.
- Directories as entries of the file system, and renames across devices: a path is a directory name and a file name, and creating directories may only fail.
- The Windows branch of the commit, which does not replace an existing file in the modes that forbid it even if it appears after the test: the model follows the branch for other systems, where a file that another process creates between the test and the rename would be replaced.
- The test that the temporary path differs from the destination: the suffix is never empty, so it cannot fail (`FileWrite.PathsDiffer`).
- What a C++ stream does with its buffer after a failed write: in the model nothing more reaches the file.
- A moved-from write has empty paths in the model, as the usual libraries leave it; the standard leaves them unspecified.
- Base64 shifts and masks are written as division, multiplication and remainder; only the accumulator's left shift can leave the 32 bits, and it is written with its wrap-around.
- Sizes are 64 bits wide, `std::size_t` included.
- FileWrite.PrepareFileWrite: a size that cannot be found out counts as zero, as in the program, so a write whose state records no bytes may be resumed at offset zero whatever its file holds; its output is emptied when it is opened.
- EndpointRanking.ProbeEndpoints: the outcomes of probes and the answers to the question for cancellation are given by position.
- FileWriteRuns.Download: speaks of atomic writes; for a non-atomic one the written file is the destination itself, and `FileWrite.PreparedFileWrite.DiscardPartial` says that discarding removes it. That a paused download can be taken up says nothing for a token with a newline, which is never recognised as itself.
- FileWriteRuns.DownloadWithCrashes: takes each token to stand for one content, and the states of all tokens but the last to be told from those of others: `FileWriteRuns.Tellable`, a finite test, which `FileWriteRuns.TellableIsExact` shows to be exact. Every token without newline passes it, and `FileWriteRuns.AlwaysTellable` says exactly which others do for every meaning of the tokens. A file name can bring a newline into a token, since a name that is rejected for its control characters is shown as it is (src/steam/depot/depot_file.cpp:113-119); then the statement can fail (`FileWriteRuns.TornTokenIsTaken` and `FileWriteRuns.PauseUnderSplitToken`).
- FileWriteRuns.PerformAll: nothing is committed while an output is open; the program closes it before.
- EndpointRanking.StableSort: the library's sort is replaced by insertion; by `EndpointRanking.RankingIsUnique` the result is the same for every algorithm.
- EndpointRanking.RankTwice: when time passes between the two rankings, that the snapshots are the same is a hypothesis.
- TaskRegistry.InactiveIsFinal: the status, the phase and an empty message may still change after a task has ended; `TaskRegistry.StatusStays` says exactly when.
- BackgroundTask.BackgroundTask.Decide: a result or report that an exception leaves half filled is not told apart from the one before or after.
- AuthSessionCodec.EncodingIsInjective: sessions that differ only in the fraction of a second have the same bytes.
- AuthSessionLayouts.V1Migrates: seconds that the clock cannot represent are not kept.
