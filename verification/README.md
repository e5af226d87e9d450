# Verified models of the file-transfer protocols

This project models the three file-transfer protocols of the mailer and the BBS, and proves what they promise:

* **ZMODEM** (`ftnbbs/zmmisc.c`, `zmsend.c`, `zmrecv.c`): the CRCs, the ZDLE escape layer, headers and data subpackets in
  both CRC widths, the streaming sender with its repositioning, and the position-checked receiver.
* **BinkP** (`ftncico/binkp.c`, `bopenfile.c`, `filelist.c`): the byte-at-a-time frame parser, the negotiation of packed
  frames, one file resumed over any number of broken sessions, the end of a session, file names in M_FILE, and the .flo
  file that remembers what has been sent.
* **XMODEM and YMODEM** (`ftnbbs/ymsend.c`, `ymrecv.c`): the block plan, sectors on the wire, stop-and-wait.

A smaller part is the escaping of EMSI data (`ftncico/emsidat.c`).

## How it is built

Each protocol is modelled twice. A *specification* of functions over values says what the code does at each byte, frame or
event; theorems about codecs and about all runs are lemmas about it. A *class* with the statics, buffers and records of the C
file as fields has a method for each C function, with its loops and in-place updates, and every method is proved to do what
the specification says, so that the theorems hold of it. The stop-and-wait model is one step further away: `ybridge.dfy` reads
off every line what it holds for a receiver and what it tells a sender, and proves that `wcrx` and `wctx` do on that line what the
model's two sides do when they see and are told just that; and that every run of the model in which nobody gives up out of
turn is what the two do on the lines that the run amounts to.

A specification function could itself be wrong together with the method that is proved to agree with it. So for each function that
decides something there are theorems in terms of what goes in and what comes out, over whole lines and runs or as the exact condition
for a branch, in which it does not occur: the modules that hunt, damage, listen, resynchronise, stream and take turns.

Runs are sequences of moves chosen freely: which side goes next, what is damaged or lost, what a disk or a peer does. A
theorem about `Run(c, start, moves)` for all `moves` is a statement about every reachable state.

| files | content |
|---|---|
| `common.dfy`, `crc.dfy`, `crctables.dfy`, `crcsteps.dfy`, `crcdetect.dfy`, `crcregister.dfy` | shared helpers; CRC-16/XMODEM and CRC-32, defined bit by bit, and what they detect |
| `zescape.dfy`, `zframe.dfy`, `ztx.dfy`, `zrx.dfy`, `zimitation.dfy` | the ZMODEM wire format, its two halves as classes, and a limit |
| `zbytes.dfy`, `zhunt.dfy`, `zdamage.dfy` | which bytes are escaped, what the hunt for a header passes over, and frames that are damaged, break off or are cancelled |
| `zsession.dfy`, `zmonitor.dfy`, `zsafety.dfy`, `zdelivery.dfy`, `zrecovery.dfy` | sender and receiver over two lossy channels: safety, delivery, recovery |
| `zsender.dfy`, `zresync.dfy`, `zstream.dfy`, `zsendfile.dfy`, `zrecvfile.dfy` | each side against any peer, and as a class |
| `bytes.dfy`, `yblocks.dfy`, `ysector.dfy`, `ylisten.dfy`, `ysync.dfy`, `ylockstep.dfy`, `ytransfer.dfy`, `ybridge.dfy` | XMODEM and YMODEM |
| `binkpframe.dfy`, `binkppoll.dfy`, `binkpopts.dfy`, `binkplink.dfy` | BinkP frames, PLZ, and two nodes with the bytes between them |
| `binkpresume.dfy`, `binkpsafety.dfy`, `binkpforeign.dfy`, `binkptransfer.dfy`, `binkpagree.dfy` | one file over many sessions, and its agreement with the model of a whole session |
| `binkpfinish.dfy`, `binkpsession.dfy` | file_transfer, from its start to its return code, on values and as a class |
| `binkpclean.dfy`, `binkpdeaths.dfy` | what a session that ends well says about the files, and when a session dies |
| `binkpqueue.dfy`, `binkpbatch.dfy`, `binkpturns.dfy` | the peer's messages, sessions for every list of files, and when a session fails or begins another batch |
| `flo.dfy`, `flolines.dfy`, `names.dfy`, `binkplongname.dfy`, `emsi.dfy` | the .flo file, names in BinkP commands, EMSI escaping |

## Where the code falls short of its promise

Each is stated as a theorem that says exactly when the promise is kept, or gives the run that breaks it.

* A ZCRC request before the first ZRPOS leaves `Eofseen` set (`ftnbbs/zmsend.c:430-486`), and nothing clears it. After such a
  request for a whole file, the sender announces the end after one block, and a correct receiver accepts the stub
  (`ZSender.HonestIff`, `ZSender.ChecksumThenStart`, `ZSender.CutShort`).
* A receiver that drops raw control characters needs a sender that escapes them (`ZEscape.FaithfulIff`).
* File data can be taken for a header by a receiver that has lost its place, exactly if control characters are escaped, or
  0x98 is not, or the code of a frame indicator is (`ZImitation.ImitableIff`): so by default they can. With a mask of 0x18 alone
  they cannot, anywhere in a frame (`ZImitation.DataHideNothing`).
* Damage on a ZMODEM line is made good as long as patience lasts: exactly twenty errors between two good subpackets
  (`ZResync.TwentyOne`) and exactly thirteen grants of one position in a row (`ZResync.PositionGranted`,
  `ZResync.ThirteenGranted`). Within that nothing stops a transfer for good (`ZRecovery.Endures`, `ZRecovery.Recovers`); but a sender that
  has to send the end of a file again can be answered with ZRINIT in the middle of it, and reports the file as skipped.
* In the hunt for a header a CAN swallows the byte behind it, so that a binary header right behind a single one loses its star
  (`ZHunt.PastPiece`); right behind two or four it is found (`ZHunt.FourCans`).
* A frame end that comes inside the check bytes of a subpacket begins the check again and is the one that counts (`ZDamage.EndInCheck`),
  and ten characters that are no hex digits pass for digits in hex headers (`ZDamage.HexBroken`).
* The comment in `binkp_send_frame` speaks of blocks that average 4096 bytes on the line; the next block size is chosen for 2048
  (`BinkpFrame.PacksIff`).
* A file that `sendzfile` reports as skipped by the remote has in fact been received whole, if the remote is a receiver like
  this one (`ZSafety.SkippedIsWhole`).
* The ACK for the tenth EOT comes too late for `wctx`, which then fails although the file is complete; which runs end like that
  is `YLockStep.ClosedFailedIff`, and there are some for every file (`YLockStep.LateAck`).
* `ymsndfiles` goes on to the next file after a failure of `wctx`, and a receiver that still waits for the last one can take
  bytes of the next for it exactly if it has room for more and has counted 255 sectors modulo 256, or 0 (`YLockStep.MixesIff`).
* `ymrcvfiles` fetches a name under XMODEM too, so that an XMODEM sender gets nothing across to it (`YLockStep.XmodemRefused`).
* M_GOT is sent before the file is closed (`ftncico/binkp.c:1377-1378`), so a receiver that dies in between loses what its
  peer has already deleted (`BinkpSafety.NeverLostIff`); an empty file is acknowledged and never delivered
  (`BinkpSafety.DeliveredIff`).
* `bopenfile` resumes on any partial file of the same name. Which ones come out right is `BinkpForeign.RightIff`: all of the file
  or the first of it; anything else is completed with the rest of the file, or acknowledged for it.
* Null pointers in `file_transfer`. A session dies on one exactly if the queue is worked off with a message on it that lacks
  arguments, or asks for the end of the file being sent (`ftncico/binkp.c:2488-2500`), or says M_GOT or M_SKIP for a file that
  is marked as being sent while none is open; or if an M_FILE lacks arguments or resumes a file that is not open, an M_NUL
  stops behind "Internet Rex 2.", or requested files are added to an empty list (`BinkpDeaths.DiesIff`). Every file has sessions
  that die of an M_GET for its end (`BinkpDeaths.GetAtEndKills`), and every two files that messages tell apart, the first not
  empty, one that dies of M_GET for the first, from its start, while the second is being sent, and M_GOT for the second
  (`BinkpDeaths.SentAgainKills`).
* An M_FILE line of 512 characters or more is answered with M_GOT and its own text as a printf format, and nothing is opened.
  The sender then takes the file for received, and disposes of it, exactly if its name is one token of less than 512 characters
  without a '%' and the session does not die of the answer (`BinkpLongName.LongLineGotIff`, `BinkpLongName.LongNameLost`).
  A name with a character below 16 is cut at the blank that pads its escape (`Names.FileSurvives`).
* A blank line keeps a .flo file for ever (`Flo.RemovableIff`).
* IDENT fields are decoded twice (`ftncico/emsidat.c:453-466`); the second pass keeps exactly the fields without a backslash
  or a closing bracket (`Emsi.TwiceIff`). `emsiencode` allots twice the length, which a string of brackets exceeds
  (`Emsi.EncodedLength`).

## Model

| member | source | states |
|---|---|---|
| `CrcTables.Entry32` | lib/crc.c:69-102 | every entry defined bit by bit (reflected polynomial 0xEDB88320) is the sum of those of eight literal table entries that its index selects |
| `CrcTables.Entry16` | lib/crc.c:106-139 | the same for CRC-16/XMODEM, polynomial 0x1021 |
| `Crc.Residue16` | ftnbbs/zmmisc.c:296-307 | every message followed by its two check bytes leaves a zero register, which is the receiver's test |
| `Crc.Residue32` | ftnbbs/zmmisc.c:328-341 | every message followed by its four check bytes leaves 0xDEBB20E3 |
| `CrcSteps.StepInjective16` | ftnbbs/zmmisc.h:187 | two registers that differ differ after any common byte |
| `CrcSteps.StepInjective32` | ftnbbs/zmmisc.h:188 | the same for the 32-bit step |
| `CrcDetect.SuffixInjective16` | ftnbbs/zmmisc.c:376-381 | and after any common suffix, however long |
| `CrcDetect.SuffixInjective32` | ftnbbs/zmmisc.c:423-439 | the same for the 32-bit register |
| `CrcSteps.PairInjective16` | ftnbbs/zmmisc.h:187 | from one register, different pairs of bytes lead to different registers |
| `CrcSteps.WordInjective32` | ftnbbs/zmmisc.h:188 | from one register, different sequences of four bytes lead to different registers |
| `CrcDetect.Detects16` | ftnbbs/zmmisc.c:615-624 | two sequences that differ only within two adjacent bytes never have the same CRC-16, so not both pass |
| `CrcDetect.Detects32` | ftnbbs/zmmisc.c:423-439 | two sequences that differ only within four adjacent bytes never have the same CRC-32 |
| `CrcRegister.WideAgrees` | ftnbbs/ymsend.c:367-376 | the `unsigned` register of wcputsec, never cut to 16 bits, keeps the 16-bit CRC in its low half |
| `ZEscape.ReadEncByte` | ftnbbs/zmmisc.c:813-866 | zdlread gives back the byte zsendline sent, with XON and XOFF of either parity inserted anywhere, also behind ZDLE |
| `ZEscape.ReadEnc` | ftnbbs/zmmisc.c:735-770 | every byte string survives the escape layer and inserted flow control, whatever the mask and whatever `lastsent` was |
| `ZEscape.FaithfulIff` | ftnbbs/zmmisc.c:813-866 | it does so for all strings exactly if a receiver with Zctlesc has a sender with Zctlesc |
| `ZEscape.EncClean` | ftnbbs/zmmisc.c:735-770 | no raw DLE, XON or XOFF of either parity in encoded bytes, and ZDLE only as the first byte of a pair |
| `ZEscape.EncReturnSafe` | ftnbbs/zmmisc.c:735-770 | no carriage return directly follows an '@' in any parity, with `lastsent` carried over from call to call |
| `ZBytes.SentAs` | ftnbbs/zmmisc.c:735-770 | which bytes are escaped, exactly: the escape, DLE, XON and XOFF always, a return unless it may stand, 0377 and other controls if Zctlesc or the mask says so; as what; and what counts as sent last |
| `ZBytes.PlainRead` | ftnbbs/zmmisc.c:813-832 | zdlread on every byte but the escape: flow control, and with Zctlesc other controls, passed over, the rest data |
| `ZBytes.EscapedRead` | ftnbbs/zmmisc.c:834-866 | zdlread on every code behind the escape: frame ends, the two rubouts, control codes, what is passed over, what is returned, and what is an error |
| `ZBytes.TextRead` | ftnbbs/zmmisc.c:874-894 | noxrd7 on every code |
| `ZFrame.ReadEncSub` | ftnbbs/zmmisc.c:351-460 | a subpacket comes back, data and frame end, in either CRC width and through inserted flow control |
| `ZFrame.PosRoundTrip` | ftnbbs/zmmisc.c:899-920 | every 32-bit position survives stohdr and rclhdr |
| `ZFrame.GetEncBinHdr` | ftnbbs/zmmisc.c:168-233 | zgethdr finds a binary header of either width behind an XON, with its type and four bytes, and stops right after it |
| `ZFrame.GetEncHexHdr` | ftnbbs/zmmisc.c:238-281 | the same for hex headers of every type below 128; the XON is left to the next reader |
| `ZFrame.StreamRoundTrip` | ftnbbs/zmmisc.c:479-594 | over a line that inserts nothing, any sequence of headers, each with its subpackets, is read back as exactly that sequence, the CRC width agreeing throughout |
| `ZFrame.DamageDetected` | ftnbbs/zmmisc.c:599-667 | of two frame bodies that differ within the width of the check, at most one passes |
| `ZFrame.StreamSafe` | ftnbbs/zmmisc.c:286-342 | over whole output streams no raw DLE or XOFF and no return after '@', `lastsent` tracked across frames |
| `ZHunt.FindsBin` | ftnbbs/zmmisc.c:479-560 | behind fewer than 1400 pieces of garbage plus the speed of the line, of whatever kinds and with flow control and timeouts anywhere between them, zgethdr finds a binary header of either width |
| `ZHunt.FindsHex` | ftnbbs/zmmisc.c:479-563 | and a hex header of every type below 128 |
| `ZHunt.TooMuch` | ftnbbs/zmmisc.c:524-533 | at the last piece of that allowance the hunt ends, right behind it |
| `ZHunt.FiveCans` | ftnbbs/zmmisc.c:501-523 | behind any such garbage, five CANs in pairs or with timeouts between them end the hunt with ZCAN at the fifth |
| `ZHunt.FourCans` | ftnbbs/zmmisc.c:501-523 | fewer leave no trace: the byte behind them is taken as if they had not been there |
| `ZHunt.BreaksOff` | ftnbbs/zmmisc.c:541-557 | a timeout or hang-up after the star or the ZDLE of a header is returned; before that a timeout starts the hunt over and only a hang-up ends it |
| `ZHunt.CanEnds` | ftnbbs/zmmisc.c:501-523 | behind a CAN a hang-up is returned; behind CAN and 'k' a timeout is an error and a hang-up is returned as the 'k' |
| `ZDamage.BinRefused` | ftnbbs/zmmisc.c:599-667 | behind any garbage the hunt passes over, a binary header altered within as many adjacent bytes as its check has is read to its end and refused |
| `ZDamage.BinBroken` | ftnbbs/zmmisc.c:599-667 | one that breaks off at any byte gives the timeout or hang-up that came, and ZCAN if five CANs did |
| `ZDamage.HexDigits` | ftnbbs/zmmisc.c:717-731 | the digits of a hex header, two for each byte |
| `ZDamage.HexRefused` | ftnbbs/zmmisc.c:672-716 | a hex header altered within two adjacent bytes is refused behind its digits |
| `ZDamage.HexBroken` | ftnbbs/zmmisc.c:775-808 | one is refused at the first byte that is no digit, and a timeout or hang-up among the digits is returned; the ten characters before 'a' pass for digits |
| `ZDamage.SecondDigit` | ftnbbs/zmmisc.c:799-806 | so in the second digit of a byte |
| `ZDamage.HexLineEnd` | ftnbbs/zmmisc.c:690-705 | and in the line end behind the digits |
| `ZDamage.FourEnds` | ftnbbs/zmmisc.c:351-460 | an undamaged subpacket is read with each of the four frame ends |
| `ZDamage.SubRefused` | ftnbbs/zmmisc.c:351-460 | a subpacket whose data, frame end and check were altered within as many adjacent bytes as the check has is refused behind its check |
| `ZDamage.TooLong` | ftnbbs/zmmisc.c:364-399 | one with more data than there is room for is refused behind the first byte too many |
| `ZDamage.SubBroken` | ftnbbs/zmmisc.c:364-399 | one that breaks off at any byte of its data gives the timeout or hang-up that came, and ZCAN if five CANs did |
| `ZDamage.CheckBroken` | ftnbbs/zmmisc.c:371-385 | so does one that breaks off in its check |
| `ZDamage.EndInCheck` | ftnbbs/zmmisc.c:367-381 | a frame end inside the check begins the check again, over all that was read, and is the one returned |
| `ZImitation.DataImitateHeader` | ftnbbs/zmmisc.c:672-716 | for every type below 128 and every position there are file data that a hunting receiver takes for that hex header, if the code of its indicator is escaped or 0x98 is not |
| `ZImitation.DataImitateBinary` | ftnbbs/zmmisc.c:599-667 | the same for binary headers of either width |
| `ZImitation.ImitableIff` | ftnbbs/zmmisc.c:735-770 | some file data are taken for a header exactly if Zctlesc is set, or 0x18 is not in the mask, or 1, 2 or 3 is |
| `ZImitation.DataHideNothing` | ftnbbs/zmmisc.c:541-560 | otherwise a receiver that loses its place at any byte of the subpackets of a frame finds no header in the rest of them |
| `ZTransmit.SubFits` | ftnbbs/zmmisc.c:134-140 | subpackets of up to 8186 bytes never overflow the frame buffer, however they are escaped |
| `ZTransmit.Transmitter.SendLine` | ftnbbs/zmmisc.c:735-770 | the switch of zsendline appends to the buffer the escape form that the round trips are about, and updates `lastsent` |
| `ZTransmit.Transmitter.SendSub16` | ftnbbs/zmmisc.c:286-317 | the loop of zsdata builds the encoded subpacket with the CRC kept on the way |
| `ZTransmit.Transmitter.SendSub32` | ftnbbs/zmmisc.c:321-342 | the same for zsda32 |
| `ZTransmit.Transmitter.SendData` | ftnbbs/zmmisc.c:286-317 | zsdata puts exactly one subpacket on the line, in the width Crc32t says, and nothing of it stays in the buffer |
| `ZTransmit.Transmitter.SendBinHeader` | ftnbbs/zmmisc.c:168-233 | zsbhdr and zsbh32 put one binary header on the line and set Crc32t to Txfcs32 |
| `ZTransmit.Transmitter.SendHexHeader` | ftnbbs/zmmisc.c:238-281 | zshhdr puts one hex header on the line, XON but for ZFIN and ZACK, and clears Crc32t |
| `ZReceive.Receiver.ZdlRead` | ftnbbs/zmmisc.c:813-866 | zdlread returns the code the specification gives for the line and consumes just its bytes |
| `ZReceive.Receiver.NoXRd7` | ftnbbs/zmmisc.c:874-894 | the same for noxrd7: flow control and, if asked, other controls passed over, parity removed |
| `ZReceive.Receiver.ZGetHex` | ftnbbs/zmmisc.c:775-808 | two hex digits give their byte; anything else gives an error |
| `ZReceive.Receiver.ZrData16` | ftnbbs/zmmisc.c:351-399 | zrdata fills the caller's buffer in place with a prefix of the line's data and accepts it only with a passing CRC-16 |
| `ZReceive.Receiver.ZrData32` | ftnbbs/zmmisc.c:404-460 | the same for zrdat32 |
| `ZReceive.Receiver.ZrData` | ftnbbs/zmmisc.c:351-460 | the width is the one Crc32r says |
| `ZReceive.Receiver.ZrBinHdr16` | ftnbbs/zmmisc.c:599-631 | zrbhdr gives type and four bytes only if the CRC-16 over all it read is zero |
| `ZReceive.Receiver.ZrBinHdr32` | ftnbbs/zmmisc.c:636-667 | zrbhd32, only if the CRC-32 leaves its residue |
| `ZReceive.Receiver.ZrHexHdr` | ftnbbs/zmmisc.c:672-716 | zrhhdr, with the line end that is eaten after the digits |
| `ZReceive.Receiver.ZGetHdr` | ftnbbs/zmmisc.c:479-594 | on every line of bytes and timeouts that ends in a hang-up, the gotos of zgethdr as a loop: it hunts as the specification says and leaves Crc32r as the header it found demands |
| `ZSafety.SenderKeeps` | ftnbbs/zmsend.c:498-660 | offset == Txpos == bytcnt <= maxbytcnt after every step, whatever the reply |
| `ZSafety.ReceiverHears` | ftnbbs/zmrecv.c:270-389 | the receiver never takes data for a position other than the one their frame was labelled with |
| `ZSafety.MoveKeeps` | ftnbbs/zmsend.c:498-729 | every move of either side, and every damage or loss, keeps the joint invariant of both sides and both channels |
| `ZSafety.Safety` | ftnbbs/zmrecv.c:270-389 | in every run over lossy channels of headers, subpackets and junk, what was received is a prefix of the file; it is the file, under the name offered, once ZEOF is accepted; the sender returns OK, or ZSKIP once it has sent data, only after that |
| `ZSafety.Handover` | ftnbbs/zmsend.c:99-150 | what is left in the channels after OK or such a ZSKIP cannot be mistaken for part of the next file |
| `ZSafety.Batch` | ftnbbs/zmsend.c:99-150 | so in a batch over one line every file after which it went on was received whole under its own name, and of the last a prefix |
| `ZSafety.SkippedIsWhole` | ftnbbs/zmsend.c:236-239 | against a receiver that never says ZSKIP, as this one never does, a file reported as skipped has been received whole, so that no batch that goes on is left out |
| `ZMonitor.DamageKeeps` | ftnbbs/zmrecv.c:345-364 | turning any stretch of a well-formed channel into junk leaves it well-formed and its reader with no more certainty than before |
| `ZMonitor.LossKeeps` | ftnbbs/zmrecv.c:282-344 | the same for a stretch that vanishes up to a header |
| `ZDelivery.Delivery` | ftnbbs/zmsend.c:387-660 | on a quiet line every file of every size gets across under every schedule that keeps giving each side its turn, whatever buffer the receiver announced: after 20 rounds a byte and 20 more the sender has returned OK and the receiver has the file under its name |
| `ZRecovery.Endures` | ftnbbs/zmsend.c:667-729 | damage of any stretch in either direction, any number of times and at any moments, as long as the receiver has complaints and the sender grants left when it strikes: under every schedule neither side gives up before the file is across |
| `ZRecovery.Recovers` | ftnbbs/zmrecv.c:265-389 | and once the line is quiet, from every state such a run can reach, every schedule that keeps giving each side its turn ends within 60 rounds a byte and 300 more, two for each token under way, with the file complete, accepted under its name, and the sender done without failure |
| `ZSender.AnyPeer` | ftnbbs/zmsend.c:566-591 | whatever a peer answers, every data frame labelled p carries the file's bytes from p on |
| `ZSender.HonestIff` | ftnbbs/zmsend.c:475-486 | no replies can make the sender announce the end too early exactly if it starts with Eofseen clear or at most a block to go |
| `ZSender.WalkEof` | ftnbbs/zmsend.c:445-466 | the checksum walk leaves Eofseen set exactly if it was, or it reads past the last whole block |
| `ZSender.ChecksumThenStart` | ftnbbs/zmsend.c:430-486 | ZCRC and then ZRPOS p: the end is announced where it is exactly if the request stayed within whole blocks or at most a block is left from p |
| `ZSender.CutShort` | ftnbbs/zmsend.c:572-658 | otherwise one block and ZEOF are sent, rzfile accepts the stub, and the sender returns OK |
| `ZSender.ThirteenInARow` | ftnbbs/zmsend.c:683-716 | at most thirteen requests in a row for one position are granted |
| `ZSender.Resyncs` | ftnbbs/zmsend.c:683-716 | requests that never go back get at most 13 (N + 1) repositionings of N bytes |
| `ZSender.BlklenFloor` | ftnbbs/zmsend.c:706-711 | the block length only shrinks, never below 16, and not at all from 32 down |
| `ZResync.PositionGranted` | ftnbbs/zmsend.c:694-716 | ZRPOS p at or below bytcnt fails the sender exactly if it is the thirteenth repeat of Lastsync; otherwise offset, Txpos and bytcnt are p, Eofseen is clear, the repeats are counted and the block length is halved exactly from the fifth on and above 32 |
| `ZResync.NextAt` | ftnbbs/zmsend.c:516-591 | and from waitack, on a quiet line, the next header is ZDATA labelled p with the file from p behind it |
| `ZResync.ThirteenGranted` | ftnbbs/zmsend.c:683-716 | for every number of times up to thirteen there is the run in which the same position is asked for that often and granted each time, with the block length halved as often as is due; the next request fails |
| `ZResync.GivesUpIff` | ftnbbs/zmsend.c:387-729 | from every state, the replies, looks and turns at which the sender fails |
| `ZResync.EndsIff` | ftnbbs/zmsend.c:538-657 | and those at which it ends with OK or ZSKIP |
| `ZResync.TenOffers` | ftnbbs/zmsend.c:395-407 | over every run the file is offered under its name as often as is counted, ten times at most, and the eleventh attempt fails |
| `ZResync.OfferedAgain` | ftnbbs/zmsend.c:408-487 | an answer that is none of those to an offer brings it again |
| `ZResync.AckHeeded` | ftnbbs/zmsend.c:717-721 | ZACK moves the sender on exactly if it is for all that was sent, or it comes while data are going out, and never changes a position |
| `ZResync.HeaderKept` | ftnbbs/zmsend.c:722-727 | over every run Txhdr holds the position of the last header sent |
| `ZResync.Unusable` | ftnbbs/zmsend.c:722-727 | so every header getinsync cannot use is answered with ZNAK for that position, and nothing else changes |
| `ZResync.ChecksumAnswer` | ftnbbs/zmsend.c:430-470 | ZCRC is answered with the inverted CRC-32 of the first blocks of the file, as many as it takes to reach the count asked for, at least one, or of all of it |
| `ZStream.Streams` | ftnbbs/zmsend.c:564-611 | over every run from the offer on: each block is the file's next bytes; ZCRCE goes with the last; otherwise the sender stops to wait exactly if it has come across more than three other bytes since it last did, or stands where it was last sent back to, or the frame fills the receiver's buffer, which no frame exceeds by a whole block |
| `ZStream.NextAtPoll` | ftnbbs/zmsend.c:612-630 | a position asked for in the middle of a frame: it is closed with an empty subpacket and the next one begins there |
| `ZStream.PollGoesOn` | ftnbbs/zmsend.c:612-633 | an acknowledgement there changes nothing, another byte is counted, a hang-up fails the sender |
| `ZStream.NextAtGlance` | ftnbbs/zmsend.c:537-562 | a position asked for just before a frame replaces the one granted |
| `ZStream.PassesRinit` | ftnbbs/zmsend.c:408-421 | ZRINIT instead of an answer to the offer is passed over with all behind it up to the next header, without another offer unless nothing more comes |
| `ZSendFile.FileSender.ZFilBuf` | ftnbbs/zmsend.c:369-384 | the block read is the file's from the offset, which moves behind it; a short one sets Eofseen |
| `ZSendFile.FileSender.Walk` | ftnbbs/zmsend.c:448-463 | the do-while loop leaves offset, bytcnt and Eofseen as the checksum walk of the theorems does |
| `ZSendFile.FileSender.Checksum` | ftnbbs/zmsend.c:430-470 | a ZCRC request is answered with the checksum of what the walk read and leaves the rest of the state as the theorems assume |
| `ZSendFile.FileSender.AnswerToName` | ftnbbs/zmsend.c:408-487 | every answer to ZFILE leads to the specified state and output |
| `ZSendFile.FileSender.Block` | ftnbbs/zmsend.c:572-600 | a turn of the sending loop: data, frame end and counters |
| `ZSendFile.FileSender.Reposition` | ftnbbs/zmsend.c:694-716 | ZRPOS within bounds: all counters at the position, the thirteenth repeat refused, the block length halved from the fifth |
| `ZSendFile.FileSender.GetInSync` | ftnbbs/zmsend.c:667-729 | getinsync on each header: the code it returns, or what it sends while it waits on |
| `ZSendFile.FileSender.ZSendFile` | ftnbbs/zmsend.c:387-660 | against every sequence of events the object sends what the specification does, so each data frame labelled p carries the file from p |
| `ZRecvFile.ReceiverStep` | ftnbbs/zmrecv.c:270-389 | against any peer: the file grows only by good data under its own length as position, requests and ACKs carry that length, ZEOF is accepted only there |
| `ZResync.TwentyOne` | ftnbbs/zmrecv.c:282-364 | over every run of events in rzfile that do not end the file, it stops exactly at the twenty-first error since the last good subpacket, and every error before that is answered with ZRPOS for where the file ends |
| `ZResync.ErrorStep` | ftnbbs/zmrecv.c:286-364 | one error: the count, and the interrupt string in front of the request exactly if a frame was damaged or at the wrong place |
| `ZResync.StopsIff` | ftnbbs/zmrecv.c:167-364 | from every state, the events at which the receiver stops |
| `ZResync.AcceptsIff` | ftnbbs/zmrecv.c:312-329 | the file is accepted exactly at a ZEOF for where it ends, if it can be closed; if not, the next offer is refused |
| `ZResync.TakesIff` | ftnbbs/zmrecv.c:337-388 | data are taken exactly as good subpackets behind a ZDATA for where the file ends, and acknowledged exactly if the frame end asks for it |
| `ZResync.AgainAsked` | ftnbbs/zmrecv.c:310-321 | a ZFILE that comes again is read past and answered with where the file ends; a ZEOF elsewhere is ignored |
| `ZResync.TryzBegins` | ftnbbs/zmrecv.c:243-262 | behind a file, kept or skipped, tryz begins again with all its tries and what was received stays |
| `ZResync.TryzAnswers` | ftnbbs/zmrecv.c:156-230 | what tryz answers to each header and subpacket, and the ZSKIP it says only once |
| `ZRecvFile.FileReceiver.FileHeader` | ftnbbs/zmrecv.c:286-344 | every header in rzfile leads to the specified state and replies |
| `ZRecvFile.FileReceiver.PutSec` | ftnbbs/zmrecv.c:365-385 | a good subpacket is appended once, counted, and acknowledged if its frame end asks for it |
| `ZRecvFile.FileReceiver.TryHeader` | ftnbbs/zmrecv.c:167-233 | every header in tryz |
| `ZRecvFile.FileReceiver.RzFiles` | ftnbbs/zmrecv.c:243-262 | over every sequence of events the object ends where the specification does, with rxbytes the length written |
| `YBlocks.PlanHolds` | ftnbbs/ymsend.c:317-331 | for every size and either block length the blocks hold the file, then only ^Z, in all the least multiple of 128 |
| `YBlocks.TrimmingCuts` | ftnbbs/ymrecv.c:169-178 | a known length cuts off all that is behind it, over any blocks |
| `YBlocks.TrimmingExact` | ftnbbs/ymrecv.c:169-178 | the file comes back exactly if Bytesleft is its size, or is 0 or larger and the file fills its sectors |
| `YBlocks.FilBuf` | ftnbbs/ymsend.c:436-448 | the buffer is filled from the file and padded in place; nothing at the end of the file |
| `YSector.SectorRead` | ftnbbs/ymrecv.c:200-285 | a sector sent is read back, number and data, with either check and length, whatever follows |
| `YSector.SectorDamage` | ftnbbs/ymrecv.c:214-237 | damage within two adjacent bytes of data and CRC is never accepted |
| `YSector.PutSecSends` | ftnbbs/ymsend.c:350-429 | wcputsec sends copies of its one sector and nothing else, eleven at most, and succeeds only right behind an ACK |
| `YListen.PutSecIs` | ftnbbs/ymsend.c:350-429 | on every line, by the position of the first byte that ends the listening: wcputsec gives up exactly at two CANs in a row, succeeds exactly on an ACK that comes at once, and sends another copy after every timeout, NAK and 'C' while attempts last; what it leaves of the line |
| `YListen.StaysCrc` | ftnbbs/ymsend.c:399-422 | from the first copy with a CRC on all have it, and only the first sector changes over |
| `YListen.AskedForCrc` | ftnbbs/ymrecv.c:266-276 | the 'C' that wcgetsec sends for a garbled first sector brings the sector with a CRC |
| `YListen.ChecksumIs` | ftnbbs/ymsend.c:367-379 | the checksum is the low byte of the sum of the data in sixteen bits |
| `YSync.SectorBehind` | ftnbbs/ymrecv.c:200-285 | behind fewer than ten troubles, each a code that begins no sector, an EOT with something behind it, a number without its complement, a sector that breaks off or does not pass, up to the silence that follows, or a CAN, but no two of those in a row: wcgetsec returns the sector, or the EOT, having complained of each that was no CAN |
| `YSync.StopsBehind` | ftnbbs/ymrecv.c:207-285 | at the tenth it stops, and at the second of two CANs |
| `YLockStep.LockStep` | ftnbbs/ymrecv.c:143-196 | in every run of YMODEM the receiver's count is the sender's sector or one less, no number is ever out of step, each sector is written once and in order, and EOT is accepted only after the last |
| `YLockStep.FileTransfer` | ftnbbs/ymsend.c:295-346 | so what is written is a prefix of the file, and the file once EOT is accepted or wctx succeeds |
| `YLockStep.NumbersDiffer` | ftnbbs/ymrecv.c:169-180 | modulo 256 the next sector is never taken for a repetition |
| `YLockStep.Answered` | ftnbbs/ymrecv.c:114-196 | which sectors and EOTs are acknowledged in each phase, which close the file, and which stop the receiver |
| `YLockStep.Completes` | ftnbbs/ymsend.c:295-346 | undisturbed, a transfer of any number of sectors comes to its end |
| `YLockStep.ClosedFailedIff` | ftnbbs/ymsend.c:336-345 | a run ends with the file complete and closed and the sender failed exactly if it stays closed and at some step the sender gave up or spent its tenth EOT on it, heard or not |
| `YLockStep.LateAck` | ftnbbs/ymsend.c:336-345 | for every file there is such a run in which nobody gives up and the tenth EOT is acknowledged |
| `YLockStep.MixesIff` | ftnbbs/ymrecv.c:166-194 | for every run in which wctx gives up and leaves wcrx waiting, bytes of the next file can get into its file exactly if it has room and has counted 255 modulo 256, or 0 with a next file that is not empty |
| `YLockStep.LeavesBehind` | ftnbbs/ymsend.c:107-118 | a receiver can be left behind after any number of sectors |
| `YLockStep.WithoutName` | ftnbbs/ymrecv.c:143-196 | wcrx and wctx keep the same promises without a sector with the name |
| `YLockStep.XmodemRefused` | ftnbbs/ymrecv.c:83-107 | an XMODEM sender gets no byte across to ymrcvfiles, which ends at the first sector that arrives |
| `YTransfer.RxStream` | ftnbbs/ymrecv.c:143-196 | numbered sectors, any number of them, then EOT: wcrx writes their trimmed data and acknowledges each once |
| `YTransfer.WholeFile` | ftnbbs/ymrecv.c:143-196 | over an undisturbed line wcrx gives back every file, with either check and block length |
| `YTransfer.TxInOrder` | ftnbbs/ymsend.c:317-331 | whatever is answered, the sectors go out in order, each until acknowledged, and success means all were |
| `YTransfer.WideChecks` | ftnbbs/ymsend.c:373-379 | the check bytes taken from the uncut register are those of the CRC-16 |
| `YTransfer.YSender.SendSector` | ftnbbs/ymsend.c:363-379 | the byte loop puts exactly the specified sector on the line |
| `YTransfer.YSender.Hear` | ftnbbs/ymsend.c:385-425 | the switch and the inner loop give the answer the specification does and consume as much of the line |
| `YTransfer.YSender.WcPutSec` | ftnbbs/ymsend.c:350-429 | wcputsec as a whole: output, answer, check mode and what is left of the line |
| `YTransfer.YSender.SendFile` | ftnbbs/ymsend.c:317-331 | the loop of wctx sends the blocks of the plan in order |
| `YTransfer.YSender.SendEot` | ftnbbs/ymsend.c:333-345 | at most ten EOTs, success exactly if fewer, and then on an ACK |
| `YTransfer.YReceiver.ReadBlock` | ftnbbs/ymrecv.c:214-243 | number, complement, data into the buffer in place, check |
| `YTransfer.YReceiver.WcGetSec` | ftnbbs/ymrecv.c:200-285 | wcgetsec as a whole: what came, the complaints sent, the buffer and the rest of the line |
| `YTransfer.YReceiver.WcRx` | ftnbbs/ymrecv.c:143-196 | wcrx as a whole: what is written, what is replied, and its result |
| `YBridge.WcRxSteps` | ftnbbs/ymrecv.c:143-285 | on every line wcrx writes what the receiver of the lock-step model writes when it sees what that line holds, turn by turn of wcgetsec, answers what that one answers, and succeeds exactly if it has closed the file |
| `YBridge.WcTxNexts` | ftnbbs/ymsend.c:317-429 | on every line wctx, behind its first sync, succeeds exactly if the sender of the model does when it is told what that line says to each attempt |
| `YBridge.OneExchange` | ftnbbs/ymsend.c:350-429 | an exchange of the model in which the sector arrives is one attempt of wcputsec and one turn of wcgetsec: the bytes sent are read as that sector, and the answer moves both sides as the model does |
| `YBridge.RunOnLines` | ftnbbs/ymrecv.c:143-285 | every run of the model in which nobody gives up out of turn, with the complaints that wcgetsec really sends on the line back: wcrx, on the line that the run is to it, writes what the model's receiver has written, and wctx, on its own, succeeds exactly if the model's sender does |
| `YBridge.FileOnLines` | ftnbbs/ymsend.c:317-346 | so for every file and every such run what wcrx writes is a prefix of the file, and the file if wctx succeeds |
| `BinkpFrame.NeverRefused` | ftncico/binkp.c:1800-1911 | over every run of the transmitter the block size stays in 4096..16383, no frame is refused, none reaches the PLZ bit, and a packed one goes out only while PLZ is active |
| `BinkpFrame.PacksIff` | ftncico/binkp.c:1808-1870 | a frame is packed exactly if PLZ is active, it is data of more than 20 bytes outside a compressed stream, and packing makes it smaller; the next block size is the one that comes to at most 2048 packed bytes at that ratio, in steps of 512 and within its bounds |
| `BinkpFrame.FeedSplit` | ftncico/binkp.c:2297-2395 | how the byte stream is cut into polls makes no difference to what is received |
| `BinkpFrame.FramesRecovered` | ftncico/binkp.c:2297-2395 | every list of frames is recovered, packed or not, if PLZ is understood whenever a byte of a packed one is read |
| `BinkpFrame.AnyFrame` | ftncico/binkp.c:2297-2395 | a frame of any peer: of fifteen bits of length while PLZ is not understood, of fourteen while it is; marked as packed it gives what it unpacks to, or ends the session |
| `BinkpFrame.AllRecovered` | ftncico/binkp.c:1800-1911 | what the transmitter sends is what the parser gives, frame by frame, under the same condition (which `BinkpLink.FramesArrive` derives) |
| `BinkpPoll.FrameSender.SendFrame` | ftncico/binkp.c:1800-1911 | binkp_send_frame writes the specified bytes, counts commands, notes M_EOB and adapts the block size |
| `BinkpPoll.FrameReceiver.Take` | ftncico/binkp.c:2310-2389 | one byte: header, body in rxbuf, and unpacking in place when the frame is complete |
| `BinkpPoll.FrameReceiver.PollFrame` | ftncico/binkp.c:2297-2395 | a poll takes at most one frame, leaves the rest of the line, and says so if the last one was not processed |
| `BinkpPoll.FrameReceiver.Session` | ftncico/binkp.c:2297-2395 | polling bytes in whatever pieces gives the frames of the whole stream |
| `BinkpOpts.PackedUnderstood` | ftncico/binkp.c:2018-2122 | in every run of the negotiation alone, a packed frame that is next on the line finds a peer for which PLZ is active |
| `BinkpOpts.ActiveIff` | ftncico/binkp.c:2018-2122 | in every run, once both have sent and heard what there is, PLZ is active on both sides exactly if neither has turned it off, and otherwise on neither |
| `BinkpOpts.Agree` | ftncico/binkp.c:2018-2122 | two nodes that can do it come to it, each sending its option once, and pack from then on |
| `BinkpOpts.Disagree` | ftncico/binkp.c:2018-2122 | if one turns it off it says nothing, and the other packs nothing |
| `BinkpLink.FramesArrive` | ftncico/binkp.c:2297-2395 | two nodes from before the negotiation on, with the bytes between them: in every run, byte by byte and so under every split into polls, no frame is refused or beyond unpacking, and each node has parsed a prefix of the frames the other was to send, all of them once nothing is under way |
| `BinkpOpts.Options.SetCompState` | ftncico/binkp.c:2084-2122 | PLZ becomes active on both counts exactly if both want it |
| `BinkpOpts.Options.SendCompOpts` | ftncico/binkp.c:2018-2076 | the option is sent, once, exactly if either side can have it |
| `BinkpOpts.Options.ParsePlz` | ftncico/binkp.c:2259-2266 | the peer's option counts only if PLZ was possible |
| `BinkpSafety.Safety` | ftncico/binkp.c:1129-1394 | over any number of sessions cut anywhere, the partial file is a prefix of the file and what reached the inbound is the file; late data after M_GET are ignored; the sender disposes only of what the receiver holds, if the last handler is not cut |
| `BinkpSafety.NeverLostIff` | ftncico/binkp.c:1376-1379 | nothing can be lost exactly if that handler is never cut between M_GOT and the close, or the file is empty |
| `BinkpSafety.CutShort` | ftncico/binkp.c:1376-1379 | the session in which it is |
| `BinkpSafety.DeliveredIff` | ftncico/binkp.c:1222-1234 | with moving files in order, everything disposed of is in the inbound exactly if the last handler is not cut and the file is not empty |
| `BinkpSafety.EmptyAcknowledged` | ftncico/binkp.c:1222-1234 | an empty file is acknowledged as already there and never delivered |
| `BinkpSafety.Resumes` | ftncico/bopenfile.c:46-117 | k bytes in one session and the rest in the next give the whole file, for every k |
| `BinkpForeign.RightIff` | ftncico/bopenfile.c:76-99 | from any partial file under the name, the file comes over right in every run exactly if that is all of the file, or the first of it and the last handler is not cut, or the file is empty |
| `BinkpAgree.MessagesAgree` | ftncico/binkp.c:2443-2598 | each message does the same to the file of the model of many sessions as to the entry of the model of one, kills one exactly if it kills the other, and disposes of the file exactly if it is M_GOT, or M_GET for the end of a file that has been sent |
| `BinkpAgree.NextAgrees` | ftncico/binkp.c:1502-1583 | so do the offer, the file that cannot be opened, and M_EOB |
| `BinkpAgree.ReadsAgree` | ftncico/binkp.c:1654-1713 | and each block, which is the file from where it was read up to |
| `BinkpAgree.AcceptsAgree` | ftncico/binkp.c:1160-1259 | an M_FILE is taken in by both, answered by both, or kills both |
| `BinkpAgree.RepliesIff` | ftncico/binkp.c:1177-1259 | it is answered with M_GOT exactly if as much is there as the file has, with M_GET exactly if less is and it was offered from its start, with M_SKIP exactly if it is otherwise wanted and cannot be written |
| `BinkpAgree.WritesAgree` | ftncico/binkp.c:1301-1394 | data are written by both or passed over by both, and behind the last byte the file is moved and M_GOT said |
| `BinkpAgree.FramesAgree` | ftncico/binkp.c:1065-1300 | every other frame takes both receivers to the same place |
| `BinkpTransfer.FileSender.GetNextFile` | ftncico/binkp.c:1502-1583 | the next file is offered from its recorded offset, skipped, or M_EOB is sent |
| `BinkpTransfer.FileSender.ReadBlock` | ftncico/binkp.c:1654-1713 | one block from txpos on, and IsSent behind the last |
| `BinkpTransfer.FileSender.Message` | ftncico/binkp.c:2443-2598 | one M_GET, M_GOT or M_SKIP about the file |
| `BinkpTransfer.FileSender.Process` | ftncico/binkp.c:2426-2613 | the queue is worked off in order and emptied |
| `BinkpTransfer.FileReceiver.BOpenFile` | ftncico/bopenfile.c:46-117 | the partial file is opened for appending, nothing of it changed, and its size is the offset to resume at |
| `BinkpTransfer.FileReceiver.BCloseFile` | ftncico/bopenfile.c:126-204 | a complete file is moved and the partial one gone; an incomplete one stays |
| `BinkpTransfer.FileReceiver.Accept` | ftncico/binkp.c:1177-1259 | RxAccF: reopen or not, then M_GOT, M_GET, M_SKIP or RxReceD |
| `BinkpTransfer.FileReceiver.Write` | ftncico/binkp.c:1301-1394 | RxWriteD: data ignored while the file is closed, appended otherwise, M_GOT at the end |
| `BinkpTransfer.FileReceiver.Take` | ftncico/binkp.c:1065-1394 | binkp_receiver on each frame in each state |
| `BinkpClean.CleanFinish` | ftncico/binkp.c:954-1040 | whatever the peer sends and whatever fails, file_transfer returns 0 only if the lists cleared are those made, entry by entry, each entry Got or Skipped on the peer's word or because the file was not to be had, and both sides have said M_EOB |
| `BinkpClean.DisposedConfirmed` | ftncico/binkp.c:2443-2598 | however a session ends, files are disposed of only if they were offered and the peer has said it has them, perhaps under another entry with the same local file, or they were missing |
| `BinkpQueue.SessionMessages` | ftncico/binkp.c:1281-1283 | over every session that does not die: the messages worked off and those still waiting are together exactly the M_GET, M_GOT and M_SKIP frames polled while the receiver waits for a file, takes one in or waits for M_EOB, in order |
| `BinkpQueue.MessageDone` | ftncico/binkp.c:2443-2598 | what each of them does to the first entry it names, to what is disposed of and to what is being sent; and nothing if it names none |
| `BinkpQueue.BothWays` | ftncico/binkp.c:1261-1300 | for every file and every length of one of the peer's there is a session in which M_GOT comes between two data frames of the latter, the file is disposed of, and 0 is returned |
| `BinkpDeaths.TurnKillsIff` | ftncico/binkp.c:2426-2613 | from every state between turns, a turn dies on a null pointer exactly if it works off the queue and some message on it, in the state the messages before it left, lacks arguments, asks for the end of the current file, or is M_GOT or M_SKIP for a file Sending with none open; or it looks at an M_FILE or M_NUL that does so, or adds requested files to nothing |
| `BinkpDeaths.DiesIff` | ftncico/binkp.c:954-1040 | a session dies exactly if it comes to such a turn |
| `BinkpDeaths.GetAtEndKills` | ftncico/binkp.c:2461-2500 | for every file and version there is a session that dies of an M_GET for its end |
| `BinkpDeaths.SentAgainKills` | ftncico/binkp.c:2508-2516 | for every two files that messages tell apart, the first not empty, and every version there is one in which the peer says no more than M_GET for the first from its start and M_GOT for the second |
| `BinkpClean.OneFileFinishes` | ftncico/binkp.c:1717-1777 | for every file a session that ends well with the file disposed of |
| `BinkpBatch.AllFinish` | ftncico/binkp.c:954-1040 | for every list of our files that messages tell apart, with any numbers of blocks, every list of the peer's, and both versions of the protocol there is a session in which all go across, every entry ends as Got, exactly our files are disposed of, and 0 is returned; under binkp/1.1 through a second, empty batch |
| `BinkpTurns.FailsIff` | ftncico/binkp.c:954-1040 | from every state, the polls, frames, disks and lines at which the session fails, and that it then ends with 108 if the line was lost and 1 if not |
| `BinkpTurns.TakenIff` | ftncico/binkp.c:1160-1259 | an M_FILE is taken in exactly if there is space, the file can be written, it is not there in full, and it is offered from where the partial one ends or there is nothing to resume; otherwise it is answered |
| `BinkpTurns.OnlyAnswered` | ftncico/binkp.c:1147-1176 | in NR mode, and if its line is too long, it is answered without a look |
| `BinkpTurns.DataWritten` | ftncico/binkp.c:1301-1394 | data are passed over while no file is open, and the last of a file is answered |
| `BinkpTurns.FrameTaken` | ftncico/binkp.c:1065-1300 | what every frame that is not out of place does to the receiver, and that it does nothing else |
| `BinkpTurns.FramePolled` | ftncico/binkp.c:959-1005 | every command polled counts, M_EOB is noted, and with nothing to poll the transmitter goes on |
| `BinkpTurns.SendsNext` | ftncico/binkp.c:1464-1583 | the first file of the list still to be sent is offered, skipped or given up, and with none left M_EOB is said, once the list is made |
| `BinkpTurns.ListMade` | ftncico/binkp.c:1464-1496 | files of a new list that cannot be found are disposed of, and from the twentieth batch on nothing is offered |
| `BinkpTurns.BlockSent` | ftncico/binkp.c:1598-1713 | the file of cursend is read on, and behind its last block it is closed and waits for M_GOT |
| `BinkpTurns.BatchIff` | ftncico/binkp.c:1717-1777 | with all acknowledged: exactly when the list goes, when the transmitter is done, and when another batch begins, for each version |
| `BinkpTurns.EobHeard` | ftncico/binkp.c:1083-1105 | M_EOB while the receiver waits for a file, for each version |
| `BinkpSession.Session.PendingFiles` | ftncico/binkp.c:2620-2633 | the count is zero exactly if every entry is Got or Skipped |
| `BinkpSession.Session.MakeList` | ftncico/binkp.c:1464-1496 | the list made has every file offered and then every file requested in order, missing ones already Got and disposed of |
| `BinkpSession.Session.ClearFileList` | ftncico/binkp.c:2815-2844 | the list is gone, if tosend was set, and nothing else changes |
| `BinkpSession.Session.Find` | ftncico/binkp.c:2460-2461 | the first entry with that name, size and date |
| `BinkpSession.Session.ProcessMessages` | ftncico/binkp.c:2426-2613 | the queue in order, each message changing at most the first entry it names |
| `BinkpSession.Session.NextFile` | ftncico/binkp.c:1502-1583 | the first entry still to be sent, or M_EOB |
| `BinkpSession.Session.ReadSend` | ftncico/binkp.c:1598-1713 | a block, and the file closed behind the last; a file is open and cursend set whenever this is reached |
| `BinkpSession.Session.WaitLast` | ftncico/binkp.c:1717-1777 | the end of a batch or of the session, by protocol version |
| `BinkpSession.Session.WaitFrame` | ftncico/binkp.c:1065-1127 | every frame in RxWaitF |
| `BinkpSession.Session.AcceptFile` | ftncico/binkp.c:1129-1259 | every M_FILE in RxAccF: missing arguments, a line too long, NR mode, the file open or opened, and what is answered |
| `BinkpSession.Session.OtherFrame` | ftncico/binkp.c:1261-1300 | every frame in RxReceD, and in RxEOB |
| `BinkpSession.Session.Turn` | ftncico/binkp.c:959-1039 | one turn of the loop, from any state |
| `BinkpSession.Session.FileTransfer` | ftncico/binkp.c:954-1040 | the loop over all events ends where the specification does, so a result of 0 means every file was dealt with |
| `Flo.MarkRemoves` | ftncico/filelist.c:605-625 | '~' at an entry's recorded offset makes check_flo give the list without it and nothing else changed; again changes nothing |
| `Flo.RemovableIff` | ftncico/filelist.c:573-604 | what is counted is the entries left and the blank lines, so the file is removed exactly if there is neither |
| `Flo.Conservation` | ftncico/filelist.c:126-211 | over any sequence of interrupted sessions the list left is the first one without the entries marked, in order, and the file goes exactly if all are and no line is blank |
| `FloLines.ListedLines` | ftncico/filelist.c:126-211 | every file, given line by line: check_flo gives one entry for each line that is neither blank nor sent, in order and with its offset; KFS exactly for '-' and '^', TFS exactly for '#'; the local name is the line without its mark and end, or the outbound and the rest of it under CFG.dospath in capitals or not; the remote name is the longest tail of it without a slash |
| `FloLines.EveryLine` | ftncico/filelist.c:126-211 | so if all lines are to be sent there is one entry for each, at its place in the file |
| `FloLines.ReadsUpTo` | ftncico/filelist.c:164-167 | fgets stops behind the first line feed, when the buffer is full, or at the end of the file, whichever comes first |
| `Flo.FloFile.Gets` | ftncico/filelist.c:164-167 | fgets: a line, or the next part of an over-long one |
| `Flo.FloFile.CheckFlo` | ftncico/filelist.c:126-211 | the entries of the file as it is, with their offsets |
| `Flo.FloFile.MarkSent` | ftncico/filelist.c:605-625 | one byte of the file overwritten and no other |
| `Flo.FloFile.FilesRemain` | ftncico/filelist.c:573-604 | the lines that do not start with '~' |
| `Flo.FloFile.Session` | ftncico/binkp.c:2554-2563 | list, marks and the decision of one session, on the bytes of the file |
| `Names.RoundTrip` | ftncico/binkp.c:2640-2719 | binkp2unix inverts unix2binkp on every string of seven-bit characters, in both ways of escaping |
| `Names.WrittenAs` | ftncico/binkp.c:2640-2670 | letters, digits and eighteen other characters travel as they are and nothing else does; the rest as backslash, an x unless the node expects none, and the code in two places |
| `Names.AnyEscape` | ftncico/binkp.c:2674-2719 | an escape of any peer, with an x of either case or none and digits of either case, gives the character with that code; one digit alone, or behind a blank, counts as the code; no digit is no escape; two backslashes are one |
| `Names.EscapedUnbroken` | ftncico/binkp.c:2640-2670 | the escaped name is free of blanks, returns and line feeds exactly if no character is below 16 |
| `Names.PrintedIff` | ftncico/binkp.c:1137-1146 | a line short enough is read back whole, name, size, date, offset and option, exactly if its name is one token |
| `Names.FileSurvives` | ftncico/binkp.c:1558-1559 | so M_FILE tells the peer these five, and its own name for the file is the name, exactly if no character is below 16 |
| `Names.LongLineAcknowledged` | ftncico/binkp.c:1137-1159 | a line of 512 or more is refused untaken, though its tokens name the file |
| `BinkpLongName.LongLineGotIff` | ftncico/binkp.c:1147-1159 | nothing is opened for such a line, and its sender is bound to take the answer for M_GOT and dispose of the file exactly if the name is one token below 512 characters without a percent sign and the file is not marked Sending with none open |
| `BinkpLongName.LongNameLost` | ftncico/binkp.c:2537-2563 | for every such name a whole session that returns 0 with the file disposed of, that answer being all the peer ever said about it |
| `Names.Unix2Binkp` | ftncico/binkp.c:2640-2670 | the loop over the characters gives the escaped name |
| `Names.Binkp2Unix` | ftncico/binkp.c:2674-2719 | the loop with its sscanf gives the unescaped one |
| `Emsi.RoundTrip` | ftncico/emsidat.c:49-81 | one pass over an encoded field gives every string back and stops right behind its delimiter, unless another follows |
| `Emsi.AnyEscape` | ftncico/emsidat.c:306-317 | an escape of any peer: two digits of either case, one alone, or none; two backslashes and two delimiters are one |
| `Emsi.AllFields` | ftncico/emsidat.c:242-280 | all the fields of a packet come back, one call after another |
| `Emsi.TwiceIff` | ftncico/emsidat.c:453-466 | an IDENT field survives its second decoding exactly if it has no backslash and no closing bracket |
| `Emsi.EncodedLength` | ftncico/emsidat.c:49-81 | the length of the code, and exactly when twice the length is enough for it |
| `Emsi.EmsiEncode` | ftncico/emsidat.c:49-81 | the buffer is filled with the code and its terminator, within bounds |
| `Emsi.SelectInPlace` | ftncico/emsidat.c:285-323 | decoding writes the field over what it was read from and never past the reader; `save` is where the next call starts |

## Left out

- ZTransmit.Transmitter.SendData: a precondition bounds the data, because zsdata does not check the room in its 16384-byte buffer (`ZTransmit.SubFits` gives the bound; MAXBLOCK is 8192, so a block of more than 8186 bytes that all need escapes would not fit).
- ZFrame.StreamRoundTrip: flow control inserted by the line is covered for escaped bytes (`ZFrame.ReadEncSub`), not in front of header frames, where only the sender's own XONs are.
- ZSafety.Safety: the channels carry tokens. Damage turns any stretch into junk, and hunting is assumed to find no header in damaged bytes; `ZImitation.DataImitateHeader` shows what that assumes away. A stretch that vanishes without a trace ends at a header, since zrdata checks no positions inside a frame.
- ZSafety.Batch: between files the receiver waits in tryz; ZFIN and the "OO" at the end of a batch are not modelled, nor is a peer that says ZSKIP to an offer, which this receiver does not.
- ZReceive.Receiver.ZGetHdr: the line is finite and then hangs up; under endless silence zgethdr need not return.
- ZSender.CutShort: one run for each file and state; `ZSender.HonestIff` has all.
- YLockStep.LockStep: replies are delivered, damaged or lost, but never late, as they carry no number; wcrxpn and wctxpn are in this model only.
- YBridge.RunOnLines: either side giving up at a moment of its own (a hang-up, an error in writing the file) is in the model's runs but on no line of bytes.
- YTransfer.YSender.SendEot: a line is what GETCHAR returns; what purgeline throws away is not on it.
- YTransfer.YSender.WcPutSec: after a hang-up the waiting loop of wcputsec never ends; the model stops there as Stuck.
- BinkpSafety.Safety: one file per direction, no NR mode; the end of a session may fall between any two steps, and inside a handler only between M_GOT and the close.
- BinkpLink.FramesArrive: the option line may be any in which parse_m_nul finds PLZ; GZ and BZ2 streams, during which nothing is packed, are left out.
- BinkpFrame.FramesRecovered: zlib is any pair of functions that are inverse where packing succeeds.
- BinkpClean.CleanFinish: what opening, reading, writing, locking and sending come to, and what the disk of the receiver says, are events.
- BinkpDeaths.DiesIff: null pointers only. bp.rxfp is left pointing to a closed file when bclosefile has moved it, and the name of an unknown command is looked up beyond its table; neither counts as a death here. Compressed streams, parse_m_nul on other lines, and execute_disposition are taken to return.
- BinkpClean.DisposedConfirmed: execute_disposition is also called on the entries without a remote name, each time; for a .flo file that is the count of `Flo.FloFile.FilesRemain`.
- BinkpLongName.LongLineGotIff: with a percent sign in the line the answer can be anything, as printf then reads arguments that are not there.
- Names.RoundTrip: characters above 127 are left out (their escape prints a sign-extended value), as are the PATH_MAX limits of the two buffers; an escape that is not hexadecimal is None, since the code then uses an old value.
- Emsi.EmsiEncode: requires that the code fits the buffer it allots; an escape that does not begin with a digit is Malformed in decoding, though sscanf may find one behind blanks.
- Flo.FloFile.CheckFlo: NUL characters in the file, the look at the byte in front of the buffer for a line that is only a line feed, and the length limit of a translated path.
- Positions and sizes are unbounded outside the codecs, which carry 32 bits; files are taken to be below 2^31 bytes.
- I/O, timeouts, logging, signals and setjmp, terminal modes, and `ttyio.c` buffering: a line is a sequence of bytes and timeouts.
- ZRecovery.Recovers: what vanishes without a trace (`ZSession.Lost1`) is left out of these runs, timeouts come only on a silent line, and damage strikes only while both sides have patience left and no end of file is under way that the sender has gone back on.
- ZMODEM window mode (Txwindow is always 0), Znulls, ZSINIT's Attn and escape flags, ZCOMMAND, append and ASCII mode, a full disk in putsec, the result of sendzfile for an empty file.
- YMODEM-G (Optiong), the formatting of the name sector, getnak.
- GZ and BZ2 stream compression, the banner, passwords and options other than PLZ.
- What execute_disposition does to the sent file itself (truncate, remove or leave), and locking of the .flo file.
