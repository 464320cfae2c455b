# Verified models of three parts of the repository

The repository's applications are SwiftUI and Firebase code around three pieces of real
logic. Each is modelled here in the form its source has, and its properties are proved for
all inputs and all runs.

## A. nanopb, the Protocol Buffers codec

`Bits`, `Descriptors`, `FieldIterator`, `Varints`, `Decoding`, `Encoding`, `InputStreams`,
`OutputStreams`, `FieldDecoders`, `RequiredFields`, `MessageDecoder`, `MessageEncoder`,
`Merging`, `RoundTrip`, `RoundTripMeaning`, `EndToEnd`, `ArrayLaws`, `MemorySafety`, `MessageLaws`,
`StructMerge`, `UnknownFields`.

The streams, the field iterator and the two-word bitmap of required fields are objects that
methods update in place, with the loops of `pb_encode.c`, `pb_decode.c` and `pb_common.c`.
Every such method is proved equal to a function on byte sequences (`Decoding`, `Encoding`):
`Outcome` ties a reader's flag, result and remaining bytes to that function, `Reports` and
`After` tie a writer's status, counters and buffer to it. The laws of the codec are then
lemmas about the functions, by induction over descriptors, values and bytes.

- A descriptor table (`pb_field_t[]`) is a sequence of `Field`s, possibly recursive through
  submessages; the all-zero entry that ends a table is `TERMINATOR`. It is reached when an
  empty table is searched for tag 0, and behaves there as in the source: a required bool at
  offset 0.
- A message struct is a map from the byte offset the iterator computes to a `Slot` (a plain
  datum, a datum with its `has_` flag, a counted array, or a union with its `which_` tag).
  The members of a union share an offset, hence one slot.
- Integers are modelled with their C widths where they matter: 64-bit and 32-bit
  accumulators with truncating shifts and a bitwise or, the 8-bit `bitpos` counter of the
  32-bit decoder with its wrap-around, the clamping of 1, 2, 4 and 8 byte fields, and
  `pb_size_t` in all three widths a build can choose (`PB_SIZE_MAX` is any of them).
  `size_t` is unbounded; results that go through a 32-bit length prefix require encodings
  below 2^32 bytes.
- The pod's build settings define `PB_ENABLE_MALLOC`; what is modelled is the default of
  `pb.h`, without it. `PB_FIELD_32BIT`, also defined there, is one of the widths covered.
- `Supported` are the tables that are modelled: static allocation, no callbacks, no
  extensions, no fixed-count arrays, no zero tags. `WellFormed` adds what the encoder and
  the decoder need to understand each other: distinct tags below 2^29, each field in its own
  storage unless it is a union member, and no non-zero initial value for a field without
  presence.
- When a decoder fails, the model says nothing about the partly filled destination. The wire
  type of a known field is ignored except where the source looks at it, to tell packed
  arrays from single entries.

## B. LevelDB's DBIter

`LiveView`, `DbIter`.

The inner iterator is a position in a list of entries sorted by `InternalKeyComparator`
(`dbformat.cc`), with `leveldb/iterator.h` as its interface. The user comparator is the
order of a real-valued rank of byte strings: strings are countable, so every comparator has
such a rank, including one that identifies different strings. `View` is the list of live
keys and values at the snapshot, `Step` a plain cursor over it, and `DBIter.Valid` the
position invariant of `db_iter.cc:41-46`. Every operation moves `Position` as `Step` says,
so any run shows what the plain cursor shows.

One branch of `Next` cannot be taken: after a change of direction, advancing the inner
iterator never runs off the end, because the current entry is still ahead (db_iter.cc:154-158).
It is proved unreachable.

## C. The Big Two card game

`Cards`, `StraightFlushes`, `Groups`, `Flushes`, `Straights`, `Classing`, `ComputerPlay`, `Ties`,
`Dealing`, `GameState`, `BigTwo`.

`Classing.ClassingPokers` is the five greedy passes of `pokerCore.swift`, one method a pass,
with their indices moving forward and back over a sequence that loses cards.
`ComputerPlay.ComputerPoker` chooses a play, and `BigTwo.Game` is the turn and pass machine of
`GamePage.swift` with its buttons; `GameState` has its state as a value, the steps on it and
what they keep, and every method of `Game` is proved to take such a step. A Swift
index-out-of-range error is a result (`trapped`) after which the program does nothing more; all
invariants hold then too, and `Game.Stopped` says why it happened. Findings:

- The flush pass steps its index back without the lower bound of the other passes. It reads
  before the start of its list exactly if ten or more cards enter it and the first five in
  suit order share a suit (`Flushes.TakeFlushes`); for a hand of a game that is exactly if
  there is no straight flush and the cards without another of their rank are at least ten,
  with five of the highest suit among them (`TrapsClassing`). `UnluckyHand` is such a hand.
- The straight pass finds a straight exactly if there is one other than 2 A 5 4 3, which it
  never tries (`LowestTwoMissed`).
- Full houses are compared by the higher of their two ranks, be it the rank of the three or
  of the pair (`FullHouseByHigherRank`), because the fourth-lowest card is used.
- Two flushes with the same five ranks cannot be compared: the comparison reads past the
  last card (`FollowTiedFlush`). All other pairs of sets of one class without a common card can.
  For this reason a computer that follows stops the program exactly if it meets such a tie before
  a set that beats the desk, and the human exactly by confirming such a flush (`FewCardsTie`).
  Which flushes a hand gives is exactly `HandFlushes`; so the stop can be told from hand and desk
  alone, unless one flush of the hand ties and another beats the desk, when it depends on the
  order in which Swift's sort leaves the two (`HandTiesIff`).
- A new game keeps the desk of the game before. Opening and leading replace it without looking
  at it (`OpeningTurn`, `OpeningConfirm`); a player who follows meets it.

A card is its suit and rank; the suit's symbol is left out. Shuffling is any permutation of
the deck.

## Model

| member | source | states |
|---|---|---|
| Varints.VarintRoundTrip | MonopolyGame/Pods/nanopb/pb_encode.c:608-628 | every 64-bit value is written as 1 to 10 bytes, and the 64-bit decoder reads it back from them, consuming exactly those bytes |
| Varints.Varint32OfEncoding | MonopolyGame/Pods/nanopb/pb_decode.c:187-253 | the exact acceptance condition of the 32-bit decoder on the encoding of any 64-bit value, and that it then returns the low 32 bits |
| Varints.Varint32Ranges | MonopolyGame/Pods/nanopb/pb_decode.c:187-253 | values below 2^32 are read back and every value in [2^32, 2^63) is rejected |
| Varints.Varint32Negative | MonopolyGame/Pods/nanopb/pb_decode.c:187-253 | sign-extended negative int32 values are read as their low 32 bits |
| Varints.ZigZagRoundTrip | MonopolyGame/Pods/nanopb/pb_decode.c:1269-1281 | zig-zag is a bijection between the int64 and the uint64 values, minimum included |
| Varints.ZigZagValue | MonopolyGame/Pods/nanopb/pb_encode.c:630-639 | the shifts and complement compute 2i for i >= 0 and -2i - 1 for i < 0 |
| FieldIterator.FieldIter.Begin | MonopolyGame/Pods/nanopb/pb_common.c:8-18 | the iterator stands at the first field, its pointers and required index fit the position, and the result says whether there is a field |
| FieldIterator.FieldIter.Next | MonopolyGame/Pods/nanopb/pb_common.c:20-76 | data pointer, size pointer and required-field index computed step by step depend only on the field position, over any mix of calls; the step is cyclic |
| FieldIterator.FieldIter.Find | MonopolyGame/Pods/nanopb/pb_common.c:78-95 | terminates, succeeds exactly if a non-extension field has the tag, stops on it, and otherwise is back where it started |
| FieldIterator.FieldIter.FindExtension | MonopolyGame/Pods/nanopb/pb_decode.c:822-832 | without extension fields the search ends unsuccessfully where it began |
| InputStreams.IStream.ReadByte | MonopolyGame/Pods/nanopb/pb_decode.c:141-157 | takes the next byte or fails at the end, and keeps the position of the end of the stream |
| InputStreams.IStream.Read | MonopolyGame/Pods/nanopb/pb_decode.c:102-137 | delivers exactly the next count bytes or fails, keeping the end of the stream |
| InputStreams.IStream.Skip | MonopolyGame/Pods/nanopb/pb_decode.c:102-123 | drops exactly count bytes or fails, keeping the end of the stream |
| InputStreams.DecodeVarint64 | MonopolyGame/Pods/nanopb/pb_decode.c:255-276 | the byte loop computes the value, success and remaining bytes of the specification that the round trip is proved about |
| InputStreams.DecodeVarint32Eof | MonopolyGame/Pods/nanopb/pb_decode.c:187-247 | the same for the 32-bit loop with its eof report |
| InputStreams.SkipVarintBytes | MonopolyGame/Pods/nanopb/pb_decode.c:278-287 | skips exactly the bytes of one varint |
| InputStreams.SkipFieldBytes | MonopolyGame/Pods/nanopb/pb_decode.c:289-331 | skips exactly one field of the wire type, and fails on the others |
| InputStreams.DecodeTagOf | MonopolyGame/Pods/nanopb/pb_decode.c:298-319 | splits off wire type and tag, and tells the end of the bytes and a zero tag from an error |
| InputStreams.MakeSubstream | MonopolyGame/Pods/nanopb/pb_decode.c:372-385 | the substream holds exactly the announced bytes, and its length is taken off the parent: position plus bytes left of the two together is unchanged |
| InputStreams.CloseSubstream | MonopolyGame/Pods/nanopb/pb_decode.c:387-400 | however little of the substream was read, the parent stands exactly at its end afterwards |
| FieldDecoders.PbDecBool | MonopolyGame/Pods/nanopb/pb_decode.c:1318-1327 | any non-zero 32-bit varint is true |
| FieldDecoders.PbDecVarint | MonopolyGame/Pods/nanopb/pb_decode.c:1329-1364 | reads a signed integer, with the size switch and the check that the stored value is the value read |
| FieldDecoders.PbDecUVarint | MonopolyGame/Pods/nanopb/pb_decode.c:1366-1388 | the same for unsigned integers |
| FieldDecoders.PbDecSVarint | MonopolyGame/Pods/nanopb/pb_decode.c:1390-1412 | the same for zig-zag integers |
| FieldDecoders.PbDecFixed32 | MonopolyGame/Pods/nanopb/pb_decode.c:1283-1296 | four bytes as a little-endian word |
| FieldDecoders.PbDecFixed64 | MonopolyGame/Pods/nanopb/pb_decode.c:1298-1316 | eight bytes as a little-endian word |
| FieldDecoders.PbDecBytes | MonopolyGame/Pods/nanopb/pb_decode.c:1431-1466 | reads the bytes exactly if they and their count fit the field |
| FieldDecoders.PbDecString | MonopolyGame/Pods/nanopb/pb_decode.c:1468-1501 | reads the announced bytes, whatever they are, exactly if they and a terminator fit the field |
| FieldDecoders.PbDecFixedLengthBytes | MonopolyGame/Pods/nanopb/pb_decode.c:1527-1548 | reads exactly as many bytes as the field has, or zeros for length 0 |
| RequiredFields.Record | MonopolyGame/Pods/nanopb/pb_decode.c:1012-1017 | setting a bit of the two words adds exactly one index to the set they stand for |
| RequiredFields.AllSeen | MonopolyGame/Pods/nanopb/pb_decode.c:1051-1069 | whole-word tests and the masked test of the last word are true exactly if all indices below the count were seen |
| MessageDecoder.SetToDefaults | MonopolyGame/Pods/nanopb/pb_decode.c:836-923 | one walk of the iterator gives every field its initial value, absent optionals and empty arrays included, at every nesting depth |
| MessageDecoder.DecodeSubmessage | MonopolyGame/Pods/nanopb/pb_decode.c:1503-1525 | decodes a nested message from its substream, with fresh defaults only for array entries, and leaves the parent at the end of the substream |
| MessageDecoder.DecodePackedArray | MonopolyGame/Pods/nanopb/pb_decode.c:424-453 | appends all entries of the substream or fails when the array overflows or an entry is malformed |
| MessageDecoder.DecodeStaticField | MonopolyGame/Pods/nanopb/pb_decode.c:406-480 | changes exactly the slot of the field: sets it, appends to it, or selects a union member, whose contents start from the defaults each time |
| MessageDecoder.CountRequired | MonopolyGame/Pods/nanopb/pb_decode.c:1036-1046 | the walk to the last field counts the required fields |
| MessageDecoder.RequiredPresent | MonopolyGame/Pods/nanopb/pb_decode.c:1030-1070 | true exactly if every required index below 64 was recorded |
| MessageDecoder.DecodeTurn | MonopolyGame/Pods/nanopb/pb_decode.c:957-1021 | one turn of the loop is one step of the run, for known and unknown tags, and keeps the record of required fields |
| MessageDecoder.PbDecodeNoInit | MonopolyGame/Pods/nanopb/pb_decode.c:925-1073 | the decoding loop with its iterator, bitmap and extension search computes the same message, success and rest as the run that does not know where the iterator stopped, and keeps the end of the stream |
| MessageDecoder.PbDecode | MonopolyGame/Pods/nanopb/pb_decode.c:1075-1087 | the same after setting the defaults |
| Merging.MergeLaw | MonopolyGame/Pods/nanopb/pb_decode.c:925-1021 | for types without required fields at the top, decoding the concatenation of complete fields is decoding the first part and then the second into the same struct |
| Merging.RunThen | MonopolyGame/Pods/nanopb/pb_decode.c:936-1021 | a run over complete fields continues as the run over what follows, whatever follows |
| StructMerge.MessageMerge | MonopolyGame/Pods/nanopb/pb_decode.c:406-480 | decoding an encoding into any struct within its storage gives that struct with the encoded one merged into it, required and nested fields included, and fails exactly if some array at any depth has no room for the entries of both |
| StructMerge.EncodingBehind | MonopolyGame/Pods/nanopb/pb_decode.c:925-1073 | any complete fields with an encoding behind them decode to the merge of the two |
| StructMerge.EncodingsMerge | MonopolyGame/Pods/nanopb/pb_decode.c:925-1073 | two encodings behind one another decode to the second struct merged into the first |
| StructMerge.MergedAt | MonopolyGame/Pods/nanopb/pb_decode.c:415-464 | in the merged struct a present scalar is the later one, an array has the entries of both in order, a nested message is itself merged, and an absent field is left alone |
| StructMerge.MergedUnionAt | MonopolyGame/Pods/nanopb/pb_decode.c:466-474 | a union has the member that the later struct selects, or what it had |
| StructMerge.MergedIntoDefaults | MonopolyGame/Pods/nanopb/pb_decode.c:1075-1087 | merging into the initial values is what the round trip rebuilds |
| Merging.UnknownFieldsIgnored | MonopolyGame/Pods/nanopb/pb_decode.c:957-986 | well-formed fields of unlisted tags after any complete fields change nothing |
| OutputStreams.OStream.Write | MonopolyGame/Pods/nanopb/pb_encode.c:103-124 | appends the bytes to buffer and count, only counts in a sizing stream, and fails exactly if they do not fit |
| MessageEncoder.FillVarint | MonopolyGame/Pods/nanopb/pb_encode.c:608-628 | the loop fills its buffer of ten bytes with the encoding that is proved to be read back, and never past its end |
| MessageEncoder.WriteVarint | MonopolyGame/Pods/nanopb/pb_encode.c:608-628 | writes that encoding, or fails exactly if it does not fit |
| MessageEncoder.WriteTag | MonopolyGame/Pods/nanopb/pb_encode.c:669-673 | writes the tag word that the decoder splits into the same wire type and tag |
| MessageEncoder.WriteString | MonopolyGame/Pods/nanopb/pb_encode.c:709-715 | writes length and bytes |
| MessageEncoder.WriteFixed32 | MonopolyGame/Pods/nanopb/pb_encode.c:641-651 | writes the four little-endian bytes |
| MessageEncoder.WriteFixed64 | MonopolyGame/Pods/nanopb/pb_encode.c:653-667 | writes the eight little-endian bytes |
| MessageEncoder.EncodeScalar | MonopolyGame/Pods/nanopb/pb_encode.c:769-899 | each kind of scalar is written with the sign extension, zig-zag, length and size checks of the source |
| MessageEncoder.CheckProto3Default | MonopolyGame/Pods/nanopb/pb_encode.c:240-339 | true exactly if the field is absent or, without presence, zero or empty through all nested messages |
| MessageEncoder.EncodeSubmessage | MonopolyGame/Pods/nanopb/pb_encode.c:717-765 | measuring and then writing into a limited substream writes length and message; the second pass writes exactly the measured size, so the size-changed error never happens, at any depth |
| MessageEncoder.PackedSize | MonopolyGame/Pods/nanopb/pb_encode.c:162-194 | the size computed for a packed array is the number of bytes its entries take |
| MessageEncoder.EncodePackedArray | MonopolyGame/Pods/nanopb/pb_encode.c:161-206 | writes tag, that size and the entries |
| MessageEncoder.EncodeUnpackedArray | MonopolyGame/Pods/nanopb/pb_encode.c:207-233 | writes each entry with its own tag |
| MessageEncoder.EncodeArray | MonopolyGame/Pods/nanopb/pb_encode.c:147-236 | writes nothing for an empty array, fails exactly above the array's capacity or on a bad entry, and else writes the entries in their form |
| MessageEncoder.EncodeBasicField | MonopolyGame/Pods/nanopb/pb_encode.c:341-426 | writes a field exactly if it is present by its repetition rule |
| MessageEncoder.PbEncode | MonopolyGame/Pods/nanopb/pb_encode.c:528-550 | writes the message's encoding; fails exactly if there is none or it does not fit |
| MessageEncoder.GetEncodedSize | MonopolyGame/Pods/nanopb/pb_encode.c:567-576 | the sizing pass returns the exact length of the encoding, and fails exactly if there is none |
| MessageEncoder.EncodeToBuffer | MonopolyGame/Pods/nanopb/pb_encode.c:86-124 | encoding into a buffer succeeds exactly if the exact size fits it, writes exactly the encoding and leaves the rest of the buffer alone |
| RoundTrip.ScalarRoundTrip | MonopolyGame/Pods/nanopb/pb_encode.c:776-899 | every scalar of every kind and size that the field can store is read back from its encoding |
| RoundTrip.StringRestoredIff | MonopolyGame/Pods/nanopb/pb_decode.c:1468-1501 | a string is read back exactly if it has no embedded NUL and leaves room for its terminator |
| RoundTrip.TagRoundTrip | MonopolyGame/Pods/nanopb/pb_decode.c:298-319 | the tag decoder inverts the tag encoder |
| RoundTrip.MessageRoundTrip | MonopolyGame/Pods/nanopb/pb_decode.c:925-1073 | decoding an encoding into a fresh struct rebuilds the struct field by field: present data, defaults for the absent, array prefixes and union choices |
| RoundTripMeaning.EncodeDecode | MonopolyGame/Pods/nanopb/pb_decode.c:1075-1087 | decode after encode restores the message: every datum, presence flag, array, union choice and nested message; absent optionals hold their defaults |
| EndToEnd.ThroughBuffer | MonopolyGame/Pods/nanopb/pb_encode.c:528-550 | the loops themselves: encoding into a buffer and decoding from it succeeds exactly if the encoding fits, and restores the message |
| ArrayLaws.PackedAndUnpackedAgree | MonopolyGame/Pods/nanopb/pb_decode.c:424-464 | any mix of packed and single occurrences of a repeated field decodes to the concatenation of their values, and succeeds exactly if the total fits the array |
| MemorySafety.DecodeStaysInBounds | MonopolyGame/Pods/nanopb/pb_decode.c:406-480 | for every byte string, a decoded message stays inside the storage of its fields, recursively |
| MessageLaws.RequiredFieldsIff | MonopolyGame/Pods/nanopb/pb_decode.c:1012-1070 | with at most 64 required fields, decoding succeeds exactly if the bytes are well-formed fields and every required field occurs |
| MessageLaws.EncodableIff | MonopolyGame/Pods/nanopb/pb_encode.c:147-160 | any struct has an encoding exactly if its arrays in use and byte fields are within capacity and its integers of a known size, recursively |
| MessageLaws.DecodedEncodable | MonopolyGame/Pods/nanopb/pb_encode.c:528-550 | whatever the decoder accepts, the encoder can encode |
| UnknownFields.PaddedRun | MonopolyGame/Pods/nanopb/pb_decode.c:957-986 | any number of well-formed fields of unlisted tags, in any gaps of a message and of the messages nested in it, leave the run over the fields what it is without them |
| UnknownFields.UnknownFieldsTransparent | MonopolyGame/Pods/nanopb/pb_decode.c:957-986 | decoding a message with unknown fields at any depth is decoding it without them |
| UnknownFields.UnknownFieldsInEncoding | MonopolyGame/Pods/nanopb/pb_decode.c:957-986 | unknown fields in all gaps of an encoding at once, between fields, between the entries of unpacked arrays and in nested messages at any depth, leave the decoded struct the same |
| UnknownFields.FieldsWritten | MonopolyGame/Pods/nanopb/pb_encode.c:528-550 | the pieces between which such fields can stand, nested messages cut up again, make up exactly the encoding |
| UnknownFields.FieldsPadding | MonopolyGame/Pods/nanopb/pb_decode.c:957-1021 | each of these pieces is a complete field when decoded in its turn, at every depth |
| MessageLaws.ReencodeSame | MonopolyGame/Pods/nanopb/pb_encode.c:528-550 | encoding the decoded message gives the same bytes |
| MessageLaws.NullTerminatedRoundTrip | MonopolyGame/Pods/nanopb/pb_encode.c:557-565 | a zero byte after the encoding ends the message there, whatever follows |
| MessageLaws.DelimitedRoundTrip | MonopolyGame/Pods/nanopb/pb_decode.c:1089-1117 | a length-prefixed encoding is read back and the rest of the stream is untouched |
| LiveView.ViewMeaning | MonopolyGame/Pods/leveldb-library/db/db_iter.cc:34-38 | a key and value are in the view exactly if the newest visible entry of the key is a put of that value |
| LiveView.ViewAscends | MonopolyGame/Pods/leveldb-library/db/dbformat.cc:51-67 | the keys of the view ascend strictly in the user's order |
| LiveView.NewerEntriesUnseen | MonopolyGame/Pods/leveldb-library/db/db_iter.cc:168-198 | entries newer than the snapshot do not change the view |
| LiveView.SeekPosition | MonopolyGame/Pods/leveldb-library/db/db_iter.cc:269-281 | the first live entry at or after the target is where the plain cursor's seek goes |
| LiveView.NeighbourPosition | MonopolyGame/Pods/leveldb-library/db/db_iter.cc:141-198 | live entries without a live entry between them are neighbours in the view |
| DbIter.InternalIter.Seek | MonopolyGame/Pods/leveldb-library/include/leveldb/iterator.h:45-48 | the inner iterator stops at the first entry at or past the internal key, or nowhere |
| DbIter.DBIter.FindNextUserEntry | MonopolyGame/Pods/leveldb-library/db/db_iter.cc:168-198 | stops on the first live entry past the key to skip and on no other, or finds there is none |
| DbIter.DBIter.FindPrevUserEntry | MonopolyGame/Pods/leveldb-library/db/db_iter.cc:227-267 | stops with key and value of the last live entry up to the inner iterator, or finds there is none |
| DbIter.DBIter.LiveMeaning | MonopolyGame/Pods/leveldb-library/db/db_iter.cc:168-198 | live is: a visible put with no earlier visible entry of its key |
| DbIter.DBIter.ScanEnds | MonopolyGame/Pods/leveldb-library/db/db_iter.cc:227-267 | where the backward scan ends: on a deletion nothing it passed is live; on a put, that put is live and the entries around it are as the reverse position invariant wants them |
| DbIter.DBIter.Position | MonopolyGame/Pods/leveldb-library/db/db_iter.cc:41-70 | in every state of the invariant, validity, key and value are those of a position of the view |
| DbIter.DBIter.SeekToFirst | MonopolyGame/Pods/leveldb-library/db/db_iter.cc:283-292 | moves as the plain cursor does, and keeps the position invariant |
| DbIter.DBIter.SeekToLast | MonopolyGame/Pods/leveldb-library/db/db_iter.cc:294-299 | moves as the plain cursor does, and keeps the position invariant |
| DbIter.DBIter.Seek | MonopolyGame/Pods/leveldb-library/db/db_iter.cc:269-281 | moves as the plain cursor does, to the first live key at or after the target |
| DbIter.DBIter.Next | MonopolyGame/Pods/leveldb-library/db/db_iter.cc:141-166 | one step on in the view, in either direction of travel before |
| DbIter.DBIter.Prev | MonopolyGame/Pods/leveldb-library/db/db_iter.cc:200-225 | one step back in the view, in either direction of travel before |
| DbIter.Run | MonopolyGame/Pods/leveldb-library/db/db_iter.cc:141-299 | for every sequence of operations, what is observed is what a plain cursor over the live keys shows |
| DbIter.ThereAndBack | MonopolyGame/Pods/leveldb-library/db/db_iter.cc:141-225 | Next then Prev, and Prev then Next, come back to the same key and value exactly if the step between is somewhere |
| DbIter.RunsIgnoreNewerEntries | MonopolyGame/Pods/leveldb-library/db/db_iter.cc:168-198 | two iterators at one snapshot, over all entries and over those that are not newer, show the same in every run |
| DbIter.WithoutNewer | MonopolyGame/Pods/leveldb-library/db/db_iter.cc:168-198 | the entries that are not newer are again sorted, so such an iterator exists |
| Cards.GeneratePokers | poker_game_app/poker_game_app/pokerCore.swift:101-115 | the loop builds 52 cards, each exactly once |
| Cards.SortUnique | poker_game_app/poker_game_app/pokerCore.swift:195-207 | the card orders are total, so a sorted hand is determined by its cards |
| StraightFlushes.MatchRow | poker_game_app/poker_game_app/pokerCore.swift:249-260 | finds the ranks of the row in order; if it falls short, the next rank is not there |
| StraightFlushes.FindStraightFlush | poker_game_app/poker_game_app/pokerCore.swift:244-282 | within a suit, finds a complete row exactly if there is one |
| StraightFlushes.TakeStraightFlushes | poker_game_app/poker_game_app/pokerCore.swift:229-284 | terminates in range, loses no card, takes only straight flushes whose level names their row, takes one exactly if the hand holds one, and of different cards leaves exactly those that are in no row taken, which is of each suit the complete row with the highest first card |
| Groups.TakeGroups | poker_game_app/poker_game_app/pokerCore.swift:288-319 | terminates in range, loses no card, takes fours, threes and pairs of one rank each and no rank twice among threes and pairs, and leaves exactly the cards without another of their rank |
| Groups.DistinctNoFive | poker_game_app/poker_game_app/pokerCore.swift:288-319 | without repeated cards no rank occurs five times |
| Groups.FullHouseShape | poker_game_app/poker_game_app/pokerCore.swift:325-331 | a three and a pair sorted together are a full house of two ranks |
| Groups.MakeFullHouses | poker_game_app/poker_game_app/pokerCore.swift:323-332 | pairs up threes and pairs until one kind is used up, losing no card |
| Flushes.TakeFlushes | poker_game_app/poker_game_app/pokerCore.swift:337-354 | reads out of range exactly in the stated case; otherwise loses no card, takes from each suit the five highest cards and then the next five, and leaves no five cards of one suit |
| Flushes.NoFiveNoFlush | poker_game_app/poker_game_app/pokerCore.swift:340-354 | in a list by suit, no five neighbours of one suit means no five cards of one suit |
| Straights.TakeStraights | poker_game_app/poker_game_app/pokerCore.swift:359-391 | terminates in range, loses no card, takes only straights whose level names their row, and takes one exactly if there is a row other than the last |
| Straights.LowestTwoMissed | poker_game_app/poker_game_app/pokerCore.swift:359-391 | a concrete hand that holds only the last row, which the pass therefore misses |
| Classing.ClassingPokers | poker_game_app/poker_game_app/pokerCore.swift:220-406 | the output sets together are exactly the input cards and have the shape of their class; what the greedy passes leave single has no pair, no flush and, if no straight was taken, no straight but the last row; the flushes of different cards are exactly `HandFlushes` of the hand; and the exact condition under which a game hand makes it read out of range |
| Classing.TrapsExactly | poker_game_app/poker_game_app/pokerCore.swift:337-354 | the condition on the list entering the flush pass, told from the hand alone |
| Classing.UnluckyHandTraps | poker_game_app/poker_game_app/pokerCore.swift:337-354 | a concrete hand of 13 different cards meets that condition |
| Classing.SinglesOfSorted | poker_game_app/poker_game_app/pokerCore.swift:288-319 | what the second pass leaves is the cards of the hand without another of their rank |
| ComputerPlay.BeatsIrreflexive | poker_game_app/poker_game_app/pokerCore.swift:434-533 | no set beats itself |
| ComputerPlay.BeatsTransitive | poker_game_app/poker_game_app/pokerCore.swift:434-533 | beating the desk is transitive over all classes |
| ComputerPlay.BeatsDecides | poker_game_app/poker_game_app/pokerCore.swift:434-533 | of two sets of one class without a common card exactly one beats the other, except for flushes of the same ranks, for which the test reads out of range |
| ComputerPlay.FullHouseByHigherRank | poker_game_app/poker_game_app/pokerCore.swift:460-495 | full houses are compared by the higher of their two ranks |
| ComputerPlay.FindBeating | poker_game_app/poker_game_app/pokerCore.swift:434-533 | the search stops at the first set the test does not reject |
| ComputerPlay.CompareFlushes | poker_game_app/poker_game_app/pokerCore.swift:496-514 | flushes are compared at the lowest place where their ranks differ, and past the end if there is none |
| ComputerPlay.RemovePlay | poker_game_app/poker_game_app/pokerCore.swift:539-555 | removes exactly the play's cards |
| ComputerPlay.ComputerPoker | poker_game_app/poker_game_app/pokerCore.swift:408-557 | play and remainder are together exactly the hand; opening plays a set with the three of clubs if it is held, leading plays a highest set, following plays a lowest set that beats the desk or none if none does; and it fails exactly if the grouping does, if it leads without cards, or if it follows and meets a tie before a set that beats the desk |
| ComputerPlay.TieMeans | poker_game_app/poker_game_app/pokerCore.swift:434-533 | the search meets a tie first exactly if its verdict is the comparison past the last card |
| Ties.TieIsMet | poker_game_app/poker_game_app/pokerCore.swift:496-514 | a tie among the sets of the hand makes it fail, unless a flush of the hand beats the desk |
| Classing.FlushesTaken | poker_game_app/poker_game_app/pokerCore.swift:229-354 | the flushes that are taken, told from the hand alone through all passes before |
| Ties.HandTiesIff | poker_game_app/poker_game_app/pokerCore.swift:434-533 | a hand of a game meets a tie only if a flush taken from it has the ranks of the flush on the desk, and always then, unless another flush of the hand beats the desk |
| Ties.FewCardsTie | poker_game_app/poker_game_app/pokerCore.swift:434-533 | for up to five picked cards the failure can be told before: exactly if they are a flush, no straight flush, of the ranks on the desk |
| Ties.FlushIsTaken | poker_game_app/poker_game_app/pokerCore.swift:220-406 | five cards of one suit without a straight flush always become a flush |
| Ties.TiedFlushes | poker_game_app/poker_game_app/pokerCore.swift:496-514 | 2 K J 9 7 of spades on the desk and of hearts in the hand are such a tie |
| Ties.FollowTiedFlush | poker_game_app/poker_game_app/pokerCore.swift:408-557 | following with them fails |
| Dealing.AssignPoker | poker_game_app/poker_game_app/pokerCore.swift:559-598 | four sorted hands of 13, each a quarter of the deck in dealing order, together the deck; the first player is the one who holds the three of clubs |
| BigTwo.OthersPassed | poker_game_app/poker_game_app/GamePage.swift:92-100 | true exactly if all other players have passed |
| BigTwo.OthersWinned | poker_game_app/poker_game_app/GamePage.swift:74-90 | true exactly if all others, or all, have won |
| GameState.NextClimbs | poker_game_app/poker_game_app/GamePage.swift:118-135 | the sets played since the last lead keep climbing: each beats all before it |
| GameState.SoundComputer | poker_game_app/poker_game_app/GamePage.swift:127-142 | a computer's play keeps the invariant: the cards stay a partition of the deck, and won is no cards, one place in the ranking and passed |
| GameState.SoundHuman | poker_game_app/poker_game_app/GamePage.swift:342-371 | the human's play keeps the invariant |
| GameState.SoundMoved | poker_game_app/poker_game_app/GamePage.swift:398-425 | moving cards between hand and picked cards keeps it |
| GameState.FirstPlay | poker_game_app/poker_game_app/GamePage.swift:112-131 | a computer that opens a new game plays a set with the three of clubs |
| GameState.RoundOn | poker_game_app/poker_game_app/GamePage.swift:112-143 | what each turn adds to: in a round without a play all have passed, and if all had passed before, nobody is left |
| GameState.RoundEnds | poker_game_app/poker_game_app/GamePage.swift:168-172 | a whole round brings the game nearer to its end: fewer cards, or all have passed who had not |
| GameState.TieIsFlush | poker_game_app/poker_game_app/pokerCore.swift:496-514 | the tie that stops the program is a flush of the hand against the flush on the desk |
| GameState.RankingFull | poker_game_app/poker_game_app/GamePage.swift:137-141 | if all have won, the ranking has exactly four places |
| GameState.HandDistinct | poker_game_app/poker_game_app/GamePage.swift:43-72 | because the cards partition the deck, no hand repeats a card |
| BigTwo.Game.InitialGame | poker_game_app/poker_game_app/GamePage.swift:43-72 | establishes the invariant from any shuffled deck, with the holder of the three of clubs to play |
| BigTwo.Game.ComputerTurn | poker_game_app/poker_game_app/GamePage.swift:118-141 | a computer plays what the rule chooses, and the whole state afterwards; or it passes, only if not all others have passed and the rule chooses nothing; it stops the program only if its hand makes the flush pass read out of range or holds a tie with the desk it follows, and always if the hand does the first, or the second without a flush that beats the desk |
| BigTwo.Game.PlayComputers | poker_game_app/poker_game_app/GamePage.swift:112-143 | keeps the invariant and leaves the human's cards and standing alone; in a round after the human is out, no play means all have passed, and all having passed means somebody plays |
| BigTwo.Game.GamePlay | poker_game_app/poker_game_app/GamePage.swift:102-186 | terminates; once the human is out, all four end up in the ranking, unless the program stops for a stated reason |
| BigTwo.Game.Pass | poker_game_app/poker_game_app/GamePage.swift:310-316 | marks the human as passed, lets the computers move, and comes to rest at the human, or stops at a computer for a stated reason |
| BigTwo.Game.Confirm | poker_game_app/poker_game_app/GamePage.swift:331-377 | alerts and changes nothing exactly if nothing is picked or the rule chooses nothing; stops exactly if the picked cards tie with the desk; otherwise the chosen set leaves the picked cards for the desk and the computers move on |
| BigTwo.Game.HumanChoice | poker_game_app/poker_game_app/GamePage.swift:332-341 | what the rule chooses from the picked cards and what it leaves; it fails exactly if they tie with the desk |
| BigTwo.Game.HumanPlay | poker_game_app/poker_game_app/GamePage.swift:342-371 | the whole state after the human's play, with the invariant and the first computer to play |
| BigTwo.Game.ComputerPlaysSet | poker_game_app/poker_game_app/GamePage.swift:127-141 | the whole state after a computer's play, with the invariant |
| BigTwo.Game.Pick | poker_game_app/poker_game_app/GamePage.swift:420-425 | the card at the index moves from the hand to the sorted picked cards if they are fewer than five; nothing else changes |
| BigTwo.Game.PutBack | poker_game_app/poker_game_app/GamePage.swift:398-403 | the card at the index moves from the picked cards to the sorted hand; its guard never refuses |
| BigTwo.OpeningTurn | poker_game_app/poker_game_app/GamePage.swift:118-141 | of two games that differ only in the desk, which may be that of the game before, a computer that opens or leads stops the one exactly if its hand stops the other, plays in it what may be played in the other, and reaches the same state |
| BigTwo.OpeningConfirm | poker_game_app/poker_game_app/GamePage.swift:331-371 | the same for the human's confirm button |
| BigTwo.Run | poker_game_app/poker_game_app/GamePage.swift:246-250 | from any deal and by any presses of the buttons, the game comes to rest with the invariant kept, and all four ranked once the human is out; or it stops for one of the stated reasons |

## Left out

- nanopb callbacks, extension fields, pointer fields with their allocation, and fixed-count arrays: foreign code, or compiled out by default.
- nanopb builds with `PB_WITHOUT_64BIT` or `PB_BUFFER_ONLY`, streams other than buffers, and error message texts.
- nanopb structs in memory: a message is a value that is passed in and returned, so aliasing of destination and source, and the partly filled destination of a failed decode, are not captured; `size_t` overflow is not modelled.
- Encodings of 4 GiB and more, whose length prefixes do not fit: the round trips require less.
- DbIter.DBIter: read sampling, the corruption status and the trimming of the value buffer are not modelled; they do not affect the view. Internal keys are entries, except for the bytes that `Seek` leaves in the saved key.
- `db_impl`, builder, tables, caches and the other LevelDB files: file I/O or thin wrappers.
- Classing.ClassingPokers: optimality is not claimed: at most one straight flush of each suit is taken, and after a straight the next card is passed over. The exact condition for reading out of range is for hands of at most 13 different cards, which is what a game deals; for other hands ten cards are necessary.
- ComputerPlay.ComputerPoker: sets equal in class and level may be visited in any order, as Swift's sort leaves it open; the contract speaks about the order visited.
- BigTwo.Game: the views, delays, coins and alert texts are not modelled, nor are the sets shown in front of each player; a turn is one step. Buttons are pressed only while the game rests at the human, as the view's guard has it.
- `winnORlose`, the coin arithmetic, the playground copy of `pokerCore.swift`, the test copy of the engine, Firestore rooms, login, CSV and SceneKit code: user interface, I/O, or too easy.
