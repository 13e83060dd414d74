# ExplOSion, modelled and proved

ExplOSion is a distribution: it puts a kernel and a userland built elsewhere into one
directory, says whose every file is, makes an image of it, and installs it from a running
system. This project models the parts of it that are algorithms or state machines in their
own right, and proves what they are for.

| files | what they model |
|---|---|
| `Bytes.dfy` | byte strings cut at a separator, as every program here cuts them |
| `Crc.dfy` | the CRC-32 of section 8 of RFC 1952: by table, by bit, and what it detects |
| `PackageList.dfy` | the package lists, as `tools/stage-packages.py` writes them and `qpkg` reads them |
| `Names.dfy`, `Images.dfy`, `Ownership.dfy`, `Asking.dfy` | the table of package names; the names files have in an image; who owns a file, from the staging rules to `qpkg owner` |
| `FileServer.dfy`, `Strap.dfy`, `Verify.dfy` | a file server that may answer short, refuse, or refuse nothing it could do, and `qpkg strap` and `qpkg verify` over it |
| `Wire.dfy`, `WireClient.dfy`, `Events.dfy` | the Wayland wire client of `toolchain/wlfuzz.c`, and what each event does to it (the "Wire Format" section of chapter 4 of the Wayland documentation) |
| `Window.dfy`, `Resizing.dfy` | the double-buffered window of `toolchain/wlcairo.c` against a compositor, and the sizes it comes to |
| `Screen.dfy`, `Screens.dfy`, `Transcript.dfy` | the screen reader, of a row and of a whole screen, and the transcript of `tools/screentext.py` |
| `Tone.dfy` | the tone detector of `tools/wav-tone.py` |
| `Paths.dfy` | the installer's paths, in `programs/bang-install/src/main.rs` |
| `Manifest.dfy` | the manifest scanner of `tools/readmanifest.py` |
| `Staging.dfy`, `Holdings.dfy` | the `stage` rule of the `Makefile` and the scripts it runs, and what is in the files it leaves |

Code that changes things in place is modelled as classes and methods with loops, each proved
equal to a function of what was there before; the main theorems are about those functions,
and say of each what a reader of the program, and not of the function, would ask for.

## What came of it

Where the code does less than its comments or its callers expect, the model follows the code
and a lemma says exactly when it does what is expected.

- `toolchain/wlfuzz.c:402` tests that eight bytes and the interface's name are there, which it
  has tested already, and then reads the version after the name's padding.
  `Wire.EventsSpeakForThemselves` says which events this makes a difference to, and
  `WireClient.ShortGlobalIsReadOn` gives them for every interface the client knows; the client's
  other results take whole `global` events for granted.
- `toolchain/wlcairo.c` gives the compositor its offsets, stride and pool size as 32-bit
  numbers. `Window.DeclaredApart`: they describe two buffers apart within the pool exactly when
  eight bytes a pixel come to less than two gigabytes; `Window.DeclaredInEveryRun` says it of the
  live pool at the end of any run. `Window.MappedApart` is the same for the client's own 64-bit
  arithmetic.
- `toolchain/wlcairo.c:304-309` returns without asking for a frame callback when both
  buffers are busy. A compositor that holds both when it answers the last callback, with no
  resize pending, leaves the window still for good: `Window.UnlessStarvedFromTheStart` and
  `Window.NothingEverAgain`; `Window.StarvationIsReached` is a run of five steps that gets there.
- `programs/qpkg/src/main.rs` gives the server 32-bit offsets. A file of four gigabytes or
  more is never read to its end by `measure` or `copy`; the contracts of `Verify.MeasureFile` and
  `Strap.CopyBytes` leave that one way out.
- `programs/qpkg/src/main.rs:576-583` keeps a strap from its own system's root by two tests. The
  second, that a joined path is empty, never holds: `Strap.JoinedIsNotEmpty`. The first holds
  exactly when both questions are answered and the root, a link at its end taken for itself, is
  where "/" is: `Strap.IsOwnRoot`. So a server that refuses one of the two questions lets "/"
  through, and a link to "/" is let through by any: `Strap.OwnRootIsOntoItself` and
  `Strap.LinkedRootPasses`. Nor are those all: a root that holds a link `etc` to "/etc" is let
  through, and has /etc/passwd copied onto itself: `Strap.RootWithALinkInside`. `Strap.Copy` says
  it of any root and path: a file is as it was afterwards if and only if the path under the root
  does not lead to the file itself, or the file is empty. What a strap does well it is shown to do
  for a root that no link leads to, with no link in it on the way to anything listed; it may hold
  what an earlier strap put there (`Strap.StrappedTwice`).
- `qpkg strap` passes over a package whose list cannot be read, without saying so:
  `Strap.Strap` returns such packages as the second of its two sequences.
- `merge` takes a line said twice for one line when the screens allow both readings.
  `Transcript.StretchGrowsExactly`: a screen is laid down right if and only if no longer stretch
  of its top looks like the end of what is written, and lines are lost otherwise;
  `Transcript.TranscriptIsTheLogExactly` says it of whole transcripts, and
  `Transcript.ALineSaidAgainIsLost` is the least case of it.
- `tools/stage-coreutils.sh:34-39` takes out what it had staged after the base install is put in,
  where `tools/stage-forget.sh` takes out the rest before. So a base install that has gained a
  program under a name coreutils was staged under loses it: `Staging.AGainedFileIsLost`, and
  `Staging.BaseStaysExactly` for when a base file is there. And a file of an earlier base install
  that this one lacks stays for good: `Staging.ADroppedFileStays` and `Staging.LeftOverExactly`.
  A stage begins as from nothing if and only if neither is the case:
  `Staging.BaseIsBackExactly`; and it never is while the base install keeps its files' names,
  whatever their contents: `Staging.HistoryDoesNotMatter`.
- `tools/stage-font-caches.sh:36-40` writes down what the cache builder wrote after it has
  written all of it, so that a builder that fails leaves caches nobody takes out. A later build
  that builds caches clears them away; one that does not has them still, and comes to the same as
  from nothing if and only if it puts a file of its own over each: `Staging.HistoryMattersExactly`,
  with `Staging.AStrayCacheStays` for a case of it.
- `tools/screentext.py:111-112` remembers a row by its bytes, and not by its width. A dump cut
  short, of which there are some (`tools/drive-qemu.py:101`), can have a row of the same bytes as
  another of another width, and whichever is read second is answered with the other's line:
  `Screen.AShortRowIsMistaken`. `Screen.Reader.ScreenLines` says when a screen reads as it would
  without the memory: when no row of its bytes was read at another width, as none was when all
  that was read was whole.
- A letter that comes down into the last two lines of its cell is misread under the cursor:
  `Screen.CursorReadsExactly`.
- `tools/readmanifest.py` prints the first block of an image, and a program is granted what all
  of them ask for: `Manifest.PrintedIsGrantedExactly` says when they are the same.
- `tools/stage-packages.py:36-43` gives two staged files one path in an image in three ways:
  `Images.SameImageExactly`. What is said of owners is said where none do.
- A package list comes back as it was written if and only if no field holds a newline, no
  `c` path a space, and no key is a one-letter line kind: `PackageList.RoundTripExactly`. Who
  owns a file is answered right without the second of these: `Asking.OwnerIsFirstClaimant`.
- A path fails to be written out whole when it is too long at any step of the way, though it
  might end short: `Paths.FailsExactlyWhenTooLong`.

## Model

| member | source | states |
|---|---|---|
| `Crc.New` | programs/qpkg/src/main.rs:386-396 | the table has, for each byte, what eight steps of bitwise division make of it |
| `Crc.TableStep` | programs/qpkg/src/main.rs:399-400 | one lookup and shift does what eight division steps do, for every register and byte |
| `Crc.Add` | programs/qpkg/src/main.rs:398-400 | the table-driven loop is the bit-at-a-time CRC of the bytes, from any register |
| `Crc.BitwiseChecksum` | toolchain/tests/cairotest.c:24-33 | the cairo test's loop without a table gives the same checksum as qpkg's |
| `Crc.PagingDoesNotMatter` | programs/qpkg/src/main.rs:409-421 | any two ways of cutting the same bytes into pages leave the same register |
| `Crc.ChecksumIsRemainder` | programs/qpkg/src/main.rs:386-400 | the checksum of any bytes is what is left of dividing them by the generator of ISO 3309, written as its exponents, on paper: the first thirty-two bits turned over, thirty-two more after them, and what is left turned over |
| `Crc.PolyIsGenerator` | programs/qpkg/src/main.rs:391 | the constant of the table is that generator, its highest coefficient in the lowest bit |
| `Crc.ResidueIsOne` | programs/qpkg/src/main.rs:386-400 | bytes followed by their own checksum leave the one register 0xDEBB20E3, whatever they are |
| `Crc.CheckValue` | programs/qpkg/src/main.rs:386-400 | the checksum of "123456789" is 0xCBF43926 |
| `Crc.BitsLinear` | programs/qpkg/src/main.rs:388-394 | the division steps are linear in the register |
| `Crc.RunIsRunBits` | programs/qpkg/src/main.rs:398-400 | feeding bytes is feeding their bits, the lowest first |
| `Crc.RunBitsInjective` | programs/qpkg/src/main.rs:398-400 | every step is one-to-one: the same bits bring two registers together only if they were the same |
| `Crc.MeetingRegisters` | programs/qpkg/src/main.rs:388-400 | registers that any bits bring together in n steps differed in their low n bits only |
| `Crc.BurstInjective` | programs/qpkg/src/main.rs:388-400 | up to thirty-two bits act one-to-one on the register |
| `Crc.BurstChangesChecksum` | programs/qpkg/src/main.rs:398-400 | two files of one length that differ only within thirty-two consecutive bits never have the same checksum |
| `Crc.FourBytesChangeChecksum` | programs/qpkg/src/main.rs:450-451 | a change within four consecutive bytes always changes the checksum |
| `Crc.ThirtyThreeBitsMayNot` | programs/qpkg/src/main.rs:388-400 | thirty-three bits may change unseen, so thirty-two is the most there is to prove |
| `PackageList.DecimalBack` | programs/qpkg/src/main.rs:190-199 | a decimal size as written is read as the number it was |
| `PackageList.HexBack` | programs/qpkg/src/main.rs:190-199 | a checksum in hexadecimal of fixed width is read as the number it was |
| `PackageList.NumberFromExactly` | programs/qpkg/src/main.rs:190-199 | in any radix up to sixteen, digits of either case are read as what they come to by their places, and as no number when that does not fit sixty-four bits |
| `PackageList.NotANumber` | programs/qpkg/src/main.rs:190-199 | and bytes with one among them that is no digit as no number |
| `PackageList.ModeIsOctal` | programs/qpkg/src/main.rs:210-213 | so a directory's line has its mode in radix eight, thirty-two bits of it |
| `PackageList.WrittenAs` | tools/stage-packages.py:127-159 | the lines of a list, letter for letter |
| `PackageList.HeadsWritten` | tools/stage-packages.py:157 | and the four it begins with |
| `PackageList.ReadBack` | programs/qpkg/src/main.rs:206-229 | one written line is read as what it was written for |
| `PackageList.RoundTrip` | tools/stage-packages.py:125-160 | a written list is read as exactly its records, in order |
| `PackageList.RoundTripExactly` | programs/qpkg/src/main.rs:201-229 | and that if and only if no field can be taken for something else |
| `PackageList.PackageLines` | tools/stage-packages.py:156-160 | what is read of a package: its four sayings, its directories, its records |
| `PackageList.PlainLines` | programs/qpkg/src/main.rs:201-229 | and with no more asked than that no newline is in it, the sayings come first and each line after them is read by itself |
| `PackageList.SaidBack` | programs/qpkg/src/main.rs:231-239 | name, version, set and about are read back as they were, of any list without stray newlines |
| `PackageList.WeightBack` | programs/qpkg/src/main.rs:241-248 | the weight is the exact count and byte total of the files and links, modulo 2^64, of any list without stray newlines |
| `Names.Table.Read` | programs/qpkg/src/main.rs:120-153 | the pages of the directory make the table that inserting the accepted names one by one does |
| `Names.Table.Insert` | programs/qpkg/src/main.rs:134-144 | shifting in place is insertion at the name's place |
| `Names.GreaterExactly` | programs/qpkg/src/main.rs:136 | one name is greater than another if and only if the other is a part of it from its beginning, or has the lesser byte where they first differ |
| `Names.TableIsSorted` | programs/qpkg/src/main.rs:134-144 | the table is in order |
| `Names.TableIsComplete` | programs/qpkg/src/main.rs:125-150 | the table holds the accepted names, each as often as it was there, up to sixty-four |
| `Names.InTableExactly` | programs/qpkg/src/main.rs:130-133 | what is in the table is a file's name of at most forty-eight bytes with no dot at its front, and every such name is in it where the directory has no more than sixty-four entries |
| `Names.PlaceSplits` | programs/qpkg/src/main.rs:135-140 | nothing before a name's place is greater than it and nothing after is less |
| `Ownership.FirstClaim` | tools/stage-packages.py:116-122 | the owner is the first package that claims the path; none before it does |
| `Ownership.GiveOut` | tools/stage-packages.py:114-133 | the loop gives each package its records, or stops exactly when some file has no claimant |
| `Ownership.GivenExactly` | tools/stage-packages.py:126-138 | a package's list has for each file it is the first to claim, after those of the files before it, that file's records - a link's path; or whether it is its owner's to change, the checksum, the length and the path, and then what it asks for - and nothing else |
| `Ownership.WrittenExactly` | tools/stage-packages.py:152-160 | there is a list of a package if and only if it wants a directory or is the first to claim a file, and it is of its own records |
| `Ownership.ListedAsOftenAsStaged` | tools/stage-packages.py:114-133 | a path is listed by its first claimant as often as it was staged, and by nobody else |
| `Ownership.ListedOnceByFirstClaimant` | tools/stage-packages.py:114-133 | with distinct image paths every staged file is listed exactly once, by the first claimant |
| `Ownership.WrittenListLists` | tools/stage-packages.py:156-160 | a list as written, without stray newlines, read by qpkg, lists a path if and only if the package was given it |
| `Images.SameImageExactly` | tools/stage-packages.py:36-43 | two staged files have one image path if and only if they are of one directory of commands or settings and one's name is made into the other's, or they are a program's with and without its ending |
| `Images.LandsExactly` | tools/stage-packages.py:36-43 | a file lands in its own directory under its own name, or, where that has no small letter and the directory is of commands or settings, under it with every capital made small and a program's ending gone |
| `Images.PartsOfImagePath` | tools/stage-packages.py:43 | the names along its path are its directory's and then that one |
| `Images.QshIsQsh` | tools/stage-packages.py:36-43 | `QSH.ELF` lands as `usr/bin/qsh` |
| `Images.DistinctExactly` | tools/stage-packages.py:114-115 | the image paths of a stage are distinct if and only if no two of its files are so |
| `Images.LsBesideLs` | tools/stage-packages.py:36-43 | `ls` staged beside `LS.ELF` is a case of it |
| `Asking.Owner` | programs/qpkg/src/main.rs:365-378 | of a server that refuses nothing it could do, the first package in the table whose list can be had and has the path; of any server, a package whose list has it, or none |
| `Asking.OnlyOneOwns` | programs/qpkg/src/main.rs:365-378 | when one list alone has a path, its package is the answer wherever it is in the table |
| `Asking.OwnerIsFirstClaimant` | programs/qpkg/src/main.rs:365-378 | `qpkg owner` on any staged path answers the first claimant, from the rules through the written lists, the file server, the sorted table and the parser, when no line written has a newline in it; and whatever the server refuses, it answers no other package |
| `FileServer.WalkStraight` | programs/qpkg/src/main.rs:483-506 | a path with no link on it leads to itself, exactly when all on the way are directories |
| `FileServer.WalkOutside` | programs/qpkg/src/main.rs:560-600 | changes below a root do not change where a path leads that never enters it |
| `FileServer.PartsOfJoin` | programs/qpkg/src/main.rs:78-93 | a joined path has the names of the first and then of the second |
| `FileServer.JoinExactly` | programs/qpkg/src/main.rs:77-88 | the text of it: one slash between the two, up to a thousand and twenty-four bytes |
| `Strap.LeadsToItself` | programs/qpkg/src/main.rs:483-558 | in a root without links but the listed ones, a path below the root leads nowhere else |
| `Strap.WayIsThere` | programs/qpkg/src/main.rs:483-506 | once a path's directories are made, and no listed file goes where one of them has to be, it can be followed to its end |
| `Strap.MakeDirs` | programs/qpkg/src/main.rs:483-506 | every directory of the path is there after it, and it is refused only for want of room, length or will; nothing outside the root, and nothing that was there, has changed |
| `Strap.CopyLink` | programs/qpkg/src/main.rs:513-519 | the link at the path is there with its target; nothing else changed |
| `Strap.CopyBytes` | programs/qpkg/src/main.rs:523-547 | whatever short reads and writes the server answers, the copy has the file's bytes; only a file of four gigabytes can fail to end |
| `Strap.CopyFile` | programs/qpkg/src/main.rs:520-558 | whatever the root, the file is byte for byte where its path under the root leads, unless that is itself, which is emptied; nothing else changed |
| `Strap.Copy` | programs/qpkg/src/main.rs:509-558 | whatever the root, a file arrives, and is itself left as it was if and only if it is not copied onto itself or is empty; under a good root the file or link is at ROOT/path, its parent directory having been made before, and a server that refuses nothing it could do does not refuse this |
| `Strap.Slurp` | programs/qpkg/src/main.rs:95-111 | the buffer holds the whole file, or the read is refused |
| `Strap.EncodedSplits` | programs/qpkg/src/main.rs:632-642 | the remembered directories, parted by NULs, are read back from their buffer |
| `Strap.LastRemembered` | programs/qpkg/src/main.rs:632-632 | the last entry of the buffer is the directory last remembered |
| `Strap.DirectoryIsParent` | programs/qpkg/src/main.rs:627-630 | the directory cut from a path is all of its way but the last name |
| `Strap.StillCopied` | programs/qpkg/src/main.rs:644-652 | a later copy undoes no earlier one, even onto the same path |
| `Strap.Strapper.TakeFile` | programs/qpkg/src/main.rs:627-652 | a file's parent is made, or was the last remembered, also when the buffer of directories is full; then the file is copied |
| `Strap.Strapper.TakeLine` | programs/qpkg/src/main.rs:610-653 | each kind of line does what it calls for and keeps all that was done |
| `Strap.Strapper.TakePackage` | programs/qpkg/src/main.rs:601-664 | after a package all its lines are done and its list is copied |
| `Strap.Strapper.TakeAll` | programs/qpkg/src/main.rs:601-664 | of all the packages, those of a set asked for are taken in full or their lists could not be read |
| `Strap.SetsKnown` | programs/qpkg/src/main.rs:592-598 | it says whether every set asked for is the set of some package here |
| `Strap.IsOwnRoot` | programs/qpkg/src/main.rs:576-583 | the guard refuses exactly this system's own root, not followed if it is a link, when the server answers both its questions, as one that refuses nothing it could do does |
| `Strap.JoinedIsNotEmpty` | programs/qpkg/src/main.rs:580-580 | its second test never holds |
| `Strap.LinkedRootPasses` | programs/qpkg/src/main.rs:576-583 | a root that is a link to "/" is a directory, passes the guard, and each file copied to it is copied onto itself |
| `Strap.OwnRootIsOntoItself` | programs/qpkg/src/main.rs:576-583 | a file copied to "/" is copied onto itself: so when the guard's question is refused |
| `Strap.RootWithALinkInside` | programs/qpkg/src/main.rs:576-583 | a root with a link in it to a directory here passes the guard, and each file of that directory is copied onto itself |
| `Strap.GoodRootIsNotOwn` | programs/qpkg/src/main.rs:576-583 | no root without links is refused for this system's own |
| `Strap.Strap` | programs/qpkg/src/main.rs:560-681 | this system's own root is refused, with nothing changed, if the server will say what it is; into a root that no link leads to, a strap that ends has every listed file, link and directory of each package it took, and the package's list, under the root, and still has what was there as it is here; it took only packages asked for, and every package of a set asked for was taken or its list could not be read; in any outcome nothing outside the root changed; and it does end so when the server refuses nothing it could do, what is listed is here, there is room for it and no listed file and no package's list is four gigabytes long |
| `Strap.StrappedTwice` | programs/qpkg/src/main.rs:560-681 | one strap after another into one root: the root is good for the second, and when both have ended every package of either is there |
| `Verify.MeasureFile` | programs/qpkg/src/main.rs:404-423 | length and checksum of the file's bytes, however the server cuts them; only four gigabytes never end |
| `Verify.Measure` | programs/qpkg/src/main.rs:404-423 | the same of what is at a path |
| `Verify.VerifyLines` | programs/qpkg/src/main.rs:442-476 | no bad line means every listed file is as built; a bad one, with nothing refused, that some file is not; both exactly, of a server that refuses nothing it could do |
| `Verify.VerifyAll` | programs/qpkg/src/main.rs:425-478 | success is that every file of every package asked about, whose list could be read, is as built, and failure is not said for nothing; of a server that refuses nothing it could do, success if and only if all is right |
| `Verify.ChangesAreCaught` | programs/qpkg/src/main.rs:450-451 | a staged file of another length, or changed within thirty-two consecutive bits, is never found as built by the list the staging tool wrote |
| `Wire.RememberLooksUp` | toolchain/wlfuzz.c:211-225 | an id remembered is looked up with its kind, other ids are as they were, the table has one entry an id; only a full table forgets |
| `Wire.ForgetLooksUp` | toolchain/wlfuzz.c:227-233 | an id forgotten is dead, and others are as they were |
| `Wire.TableHoldsLastWord` | toolchain/wlfuzz.c:203-233 | over any run the table agrees with a map of the last word on each id it holds, and on every id unless it is full |
| `Wire.KindIsLookup` | toolchain/wlfuzz.c:235-243 | the kind found is that of the one live entry |
| `Wire.EventsSpeakForThemselves` | toolchain/wlfuzz.c:397-409 | what an event does depends on nothing past its end, except exactly for a known `global` that ends before its version |
| `WireClient.ShortGlobalIsReadOn` | toolchain/wlfuzz.c:402-406 | for every interface known, a `global` that ends with its name is acted on, and the version kept is what stands after it |
| `Wire.FlowConcat` | toolchain/wlfuzz.c:343-420 | what comes of some bytes and then of more is what comes of them together, a full buffer dropped or not |
| `Wire.FlowLeavesRoom` | toolchain/wlfuzz.c:345-347 | what is left over of any stream is less than the buffer |
| `Wire.FlowIsDrain` | toolchain/wlfuzz.c:369-419 | one pass over the buffer does what the stream's function says, and then a buffer that is full is dropped |
| `Wire.DropsExactly` | toolchain/wlfuzz.c:345-347 | the buffer is dropped at some point if and only if the stream comes to a message longer than it with a buffer's worth of it come |
| `Wire.ReceiveAllIsFlow` | toolchain/wlfuzz.c:343-420 | receptions one by one, none of more than there is room for, come to what the whole stream does |
| `Wire.CutsDoNotMatter` | toolchain/wlfuzz.c:343-420 | any two ways of cutting any stream into receptions leave the same objects, globals, serial, error and leftover bytes, and drop the buffer or do not alike |
| `WireClient.Client.constructor` | toolchain/wlfuzz.c:203-286 | the client starts valid: no object, no global, nothing held |
| `WireClient.Client.Introduce` | toolchain/wlfuzz.c:852-854 | the display and the registry are its first two objects, and it is in step with any tame stream |
| `WireClient.Client.NoteObject` | toolchain/wlfuzz.c:211-225 | the loop over the array does what the table's function says |
| `WireClient.Client.ForgetObject` | toolchain/wlfuzz.c:227-233 | likewise |
| `WireClient.Client.FindKind` | toolchain/wlfuzz.c:235-243 | likewise |
| `WireClient.Client.Pick` | toolchain/wlfuzz.c:245-255 | a live object of the kind asked for if there is one, and zero only if there is none |
| `WireClient.Client.LearnGlobal` | toolchain/wlfuzz.c:397-409 | the global's name and version are kept for the interface it is of |
| `WireClient.Client.HandleEvent` | toolchain/wlfuzz.c:384-414 | each event changes the client as the function of the event says, which the rows of `Events` below say what it is for |
| `WireClient.Client.TakeMessage` | toolchain/wlfuzz.c:370-415 | one message, taken from the buffer if whole |
| `WireClient.Client.DrainBuffer` | toolchain/wlfuzz.c:369-418 | the whole messages are acted on and what is left is moved to the front |
| `WireClient.Client.ReadEvents` | toolchain/wlfuzz.c:343-420 | all that was received is acted on as one stream, a buffer that a message has filled dropped |
| `WireClient.Client.SendBytes` | toolchain/wlfuzz.c:292-330 | it ends within 2001 answers to try again; true means the socket took the message in order and once, the descriptor with its first piece only |
| `WireClient.Client.BindGlobal` | toolchain/wlfuzz.c:729-751 | a bind sent is the message for the global, interface, version and new id; the id is then remembered with its kind, unless the table is full |
| `WireClient.Client.PickGlobal` | toolchain/wlfuzz.c:607-618 | one of the globals offered, if there is one |
| `WireClient.Client.LegalBind` | toolchain/wlfuzz.c:607-621 | it binds an offered global at a version from one to the one offered, and does nothing if none is offered |
| `WireClient.Message.Put32` | toolchain/wlfuzz.c:428-433 | four bytes, the least first, if they fit |
| `WireClient.Message.Pad` | toolchain/wlfuzz.c:441-447 | zeros up to a multiple of four |
| `WireClient.Message.LayBind` | toolchain/wlfuzz.c:729-749 | a bind laid down field by field is the wire form of its arguments |
| `WireClient.BindReadsBack` | toolchain/wlfuzz.c:397-409 | the reader of `global` events gets the same name, interface and version back, for a name of any length |
| `WireClient.FitsExactly` | toolchain/wlfuzz.c:428-447 | a name fits if and only if a bind with it is no longer than the message buffer |
| `WireClient.HeaderReadsBack` | toolchain/wlfuzz.c:371-374 | object, opcode and size are read back from the header |
| `Events.DeletedIsGone` | toolchain/wlfuzz.c:395-396 | after the display's `delete_id` of an id it is of no kind, every other id is of the kind it was, and nothing else of the client has changed |
| `Events.OfferedIsOffer` | toolchain/wlfuzz.c:412-414 | after a device's `data_offer` of an id it is an offer, unless it is a new one and the table is full, and nothing else has changed |
| `Events.ConfiguredIsSerial` | toolchain/wlfuzz.c:410-411 | after a surface's `configure` the serial is the word it carried, and nothing else has changed |
| `Events.ErrorIsKept` | toolchain/wlfuzz.c:385-394 | after an `error` the object, the code and as much of the text as there is room for are those it carried, in that order, and nothing else has changed |
| `Events.GlobalIsLearnt` | toolchain/wlfuzz.c:397-409 | after a `global` its name, and its version or the least there is, are kept for the interfaces its text matches and for no other, and nothing else has changed |
| `Events.MatchesExactly` | toolchain/wlfuzz.c:404 | a text matches an interface if and only if it is a part of it from its beginning, or has all of it and then its end |
| `Events.WholeNameMatches` | toolchain/wlfuzz.c:404 | so a text with its end in it matches the interface it names and no other |
| `Events.NothingElseMatters` | toolchain/wlfuzz.c:384-414 | any other event changes nothing |
| `Events.MessageInBytes` | toolchain/wlfuzz.c:371-374 | the header of a message byte by byte: sender, number and length, each the least byte first |
| `Events.EventsInTurn` | toolchain/wlfuzz.c:369-419 | a stream of whole events leaves nothing over and does what each does in its turn |
| `Events.StreamLeavesLastWord` | toolchain/wlfuzz.c:343-420 | and of each id the client then knows what was last said of it, by the client or by an event, so long as the table has had room |
| `Window.LaunchedKeeps` | toolchain/wlcairo.c:233-275 | the first pool starts the invariant |
| `Window.DropLeavesOne` | toolchain/wlcairo.c:277-293 | letting the old set go leaves one pool, mapping, descriptor and pair of buffers |
| `Window.PaintKeeps` | toolchain/wlcairo.c:158-225 | the buffer painted is one the compositor does not hold |
| `Window.DrawKeeps` | toolchain/wlcairo.c:295-322 | a draw, with or without a resize and with or without memory for it, keeps the invariant, paints one frame and asks for one callback, unless both buffers are busy |
| `Window.NextKeeps` | toolchain/wlcairo.c:102-328 | every step of client and compositor keeps the invariant |
| `Window.SafeFromTheStart` | toolchain/wlcairo.c:139-322 | in every run the client never paints a held buffer, and between events there is one set of objects with nothing left put aside |
| `Window.OneFrameOutstanding` | toolchain/wlcairo.c:295-328 | if the compositor holds at most one current buffer when it fires a callback, exactly one callback is outstanding at any time after the first draw |
| `Window.BeginGoes` | toolchain/wlcairo.c:295-322 | the first draw starts that state, whatever came before it |
| `Window.CourteousFromTheStart` | toolchain/wlcairo.c:295-328 | so in every run from the first pool of such a compositor: no callback is outstanding before the first draw, and exactly one at any time after it |
| `Window.OutstandingUnlessStarved` | toolchain/wlcairo.c:304-309 | of any compositor: the callback is outstanding if and only if no step starved the client |
| `Window.UnlessStarvedFromTheStart` | toolchain/wlcairo.c:304-309 | and so in every run from the first pool |
| `Window.StarvationIsReached` | toolchain/wlcairo.c:304-309 | a run of five steps starves the client |
| `Window.NothingEverAgain` | toolchain/wlcairo.c:304-309 | a starved client never paints again |
| `Window.Listener.MakePool` | toolchain/wlcairo.c:233-275 | the callback's fields change as the state machine's do, memory or none |
| `Window.Listener.LetOldGo` | toolchain/wlcairo.c:277-293 | likewise |
| `Window.Listener.DrawFrame` | toolchain/wlcairo.c:295-322 | likewise |
| `Window.Listener.Commit` | toolchain/wlcairo.c:310-321 | likewise |
| `Window.Listener.Handle` | toolchain/wlcairo.c:102-142 | every listener does the machine's step |
| `Resizing.SizesAreAsTold` | toolchain/wlcairo.c:110-127 | at the end of any run from the first pool the size wanted is the last that was dispatched with both numbers above nought, of events dispatched in the order they were sent; the first size if there was none; and the size there was, if there has been no memory since. The size of the pool is that wanted at the last draw with memory |
| `Resizing.ToldSizeIsDrawn` | toolchain/wlcairo.c:295-305 | so a size told, and no other after it, is the window's once it has drawn and was never short of memory |
| `Resizing.AnySizeIsReached` | toolchain/wlcairo.c:110-127 | and any size can be told and drawn, in three steps from the first pool |
| `Window.DeclaredApart` | toolchain/wlcairo.c:252-268 | the sizes told to the compositor describe disjoint buffers in the pool if and only if eight bytes a pixel stay under 2^31 |
| `Window.MappedApart` | toolchain/wlcairo.c:233-268 | and those used for painting, if and only if they stay under 2^64 |
| `Window.DeclaredInEveryRun` | toolchain/wlcairo.c:233-275 | at the end of any run, through any resizes, the live pool's declared buffers are apart if and only if its size is such |
| `Window.FairInEveryRun` | toolchain/wlcairo.c:233-275 | and they are always, where the first size is such and every size asked for |
| `Screen.Leader` | tools/screentext.py:85-93 | the ground is a colour of the cell and none is commoner |
| `Screens.GroundIsFirst` | tools/screentext.py:93 | and of the commonest it is the one that comes first |
| `Screen.KeyOfPaint` | tools/screentext.py:85-98 | a cell painted in two colours has its glyph or the complement for key |
| `Screen.FirstClaimIsKept` | tools/screentext.py:43-45 | a shape reads as the character it first came with |
| `Screen.LookupExactly` | tools/screentext.py:77-82 | a shape or its complement finds the shape's character, but for the one case there is |
| `Screen.ReadBackExactly` | tools/screentext.py:77-98 | a narrow cell is misread in exactly that case |
| `Screen.WideReadBackExactly` | tools/screentext.py:115-131 | a wide cell in that case, or when its left half is taken for a narrow character |
| `Screen.DrawnReadsBack` | tools/screentext.py:115-133 | a row drawn from narrow and wide glyphs reads as its text when each cell drawn reads right, whatever else is in the font |
| `Screen.DrawnReadsBackExactly` | tools/screentext.py:115-133 | and only then, where no character is both narrow and wide |
| `Screen.LegibleReadsRight` | tools/screentext.py:77-82 | with no glyph another's complement, every cell does |
| `Screen.RowReadsBack` | tools/screentext.py:115-134 | with the blanks at its end dropped |
| `Screens.LinesExactly` | tools/screentext.py:105-141 | the lines of any screen are its rows' from the top down, each as it reads, as far as the last that is not empty |
| `Screens.RStripExactly` | tools/screentext.py:134 | each with the blanks at its end dropped and nothing else |
| `Screens.BlankExactly` | tools/screentext.py:134 | a blank is any of the twenty-nine characters of white space |
| `Screens.RowsBack` | tools/screentext.py:84-98 | rows dumped one after another, whatever comes after them, are the rows of the dump |
| `Screens.ScreenReadsBack` | tools/screentext.py:105-141 | a whole screen drawn row under row and dumped reads as its text, each row's in its place, blanks at the ends of lines and blank lines at the bottom dropped |
| `Screen.CursorReads` | tools/screentext.py:121-124 | under the cursor a cell reads as its shape does, cursor and all, or else as its glyph with the last two lines blank, if it is taken the right way round |
| `Screen.CursorReadsExactly` | tools/screentext.py:121-124 | so a character is read under it if and only if its last two lines are full, or blank with no other of that shape |
| `Screen.RowIsItsBytes` | tools/screentext.py:84-98 | a row is its own bytes and the width, and nothing else of the dump, however short |
| `Screen.RawBack` | tools/screentext.py:84-98 | a row as dumped, read out of the dump, is the row |
| `Screen.Reader.ReadOne` | tools/screentext.py:115-134 | the loop over columns reads the row |
| `Screen.Reader.Row` | tools/screentext.py:110-138 | a row from the memo is the row as it would be read at the width it had the first time |
| `Screen.Reader.ScreenLines` | tools/screentext.py:105-141 | the lines are those of reading without a memo, blank lines at the end dropped, if no row of those bytes was read at another width: so over whole dumps, and over dumps of one width |
| `Screen.CompleteIsWhole` | tools/screentext.py:69-74 | a dump with as many bytes as its header says is whole |
| `Screen.AShortRowIsMistaken` | tools/screentext.py:111-114 | a row of a dump cut short has the bytes of a narrower one, and reads otherwise |
| `Transcript.Longest` | tools/screentext.py:154-156 | the overlap found is one, and the longest |
| `Transcript.Transcript.Merge` | tools/screentext.py:144-161 | the loop lays the screen over its longest overlap |
| `Transcript.MergedKeepsAndEnds` | tools/screentext.py:144-161 | the old text stays first, the screen comes last, and only gap marks are new |
| `Transcript.MergingTwiceAddsNothing` | tools/screentext.py:144-161 | a screen looked at again changes nothing |
| `Transcript.EarlierStays` | tools/drive-qemu.py:95-111 | over any run of looks what was written stays |
| `Transcript.EveryLookIsThere` | tools/drive-qemu.py:95-111 | every screen looked at is in the transcript in one piece |
| `Transcript.NothingElseIsThere` | tools/drive-qemu.py:95-111 | and nothing is that was not shown, but the gap marks |
| `Transcript.StretchGrowsExactly` | tools/screentext.py:153-160 | a screen that overlaps what is written is laid down right if and only if no longer stretch of its top looks like the end of it; otherwise lines are lost |
| `Transcript.GapExactly` | tools/screentext.py:153-160 | a gap is marked if and only if no stretch of the screen's top looks like the end of what is written |
| `Transcript.TranscriptIsTheLog` | tools/drive-qemu.py:95-111 | with looks that overlap and are clear in that sense, it is the stretch of the log shown |
| `Transcript.TranscriptIsTheLogExactly` | tools/drive-qemu.py:95-111 | of a console that only scrolls on, if and only if they are clear; otherwise it is shorter |
| `Transcript.DifferentLinesAreTheLog` | tools/drive-qemu.py:95-111 | as they are when no two lines are the same |
| `Transcript.ALineSaidAgainIsLost` | tools/screentext.py:154-158 | a look that is not clear: a line said three times is written twice |
| `Tone.GoertzelIsFourier` | tools/wav-tone.py:68-75 | the power of the recurrence's last two values is the squared magnitude of the plain Fourier sum |
| `Tone.FourierIsBounded` | tools/wav-tone.py:75-76 | that is at most the number of samples times their energy |
| `Tone.LastTwo` | tools/wav-tone.py:72-74 | the loop computes the recurrence |
| `Tone.Share` | tools/wav-tone.py:68-76 | the share is twice the squared magnitude over samples and energy, and from nought to two |
| `Tone.SteadyIsTheMost` | tools/wav-tone.py:75-76 | two is reached, by a steady signal at no frequency |
| `Tone.Search` | tools/wav-tone.py:51-65 | the window found is the first of the loudest, among those half a window apart; silence and short recordings are told apart |
| `Paths.FailsExactlyWhenTooLong` | programs/bang-install/src/main.rs:72-87 | the walk fails if and only if some step of it is too long for the buffer, and otherwise the limit makes no difference |
| `Paths.Whole` | programs/bang-install/src/main.rs:65-94 | the loop in the buffer writes the place the current directory and the path lead to, or gives up exactly when the walk fails |
| `Paths.Take` | programs/bang-install/src/main.rs:73-87 | one part pushed, popped or passed over in place |
| `Paths.TakeOff` | programs/bang-install/src/main.rs:76-79 | looking back for the slash takes off exactly the last name; above the root is the root |
| `Paths.WalkKeepsNames` | programs/bang-install/src/main.rs:72-87 | a walk's place has no empty name, no `.` and no `..` |
| `Paths.NowhereUpAndDown` | programs/bang-install/src/main.rs:72-85 | an empty part or a dot leads nowhere, nor does a name with two dots after it, nor two dots from the root; a name leads down |
| `Paths.WholeIsPlain` | programs/bang-install/src/main.rs:65-94 | what is written is absolute, and its parts are the place's names and nothing else |
| `Paths.OneTextOnePlace` | programs/bang-install/src/main.rs:65-94 | two places have the same text if and only if they are the same |
| `Paths.WholeAgain` | programs/bang-install/src/main.rs:65-94 | written out whole again, from any directory, a path is as it was |
| `Paths.RelativeIsJoined` | programs/bang-install/src/main.rs:67-72 | a relative path is the absolute one of directory, slash and path |
| `Paths.MountedOn` | programs/bang-install/src/main.rs:97-108 | the first mount at exactly that text whose source fits, or none |
| `Paths.SpellingsAgree` | programs/bang-install/src/main.rs:97-108 | two spellings compare equal if and only if they lead to one place |
| `Paths.FoundByPlace` | programs/bang-install/src/main.rs:97-108 | so a mount is found by its place and not by its spelling |
| `Paths.Join` | programs/bang-install/src/main.rs:42-62 | parts joined in the buffer, one slash before each, or given up exactly when too long |
| `Paths.JoinedGoesDown` | programs/bang-install/src/main.rs:42-62 | names joined to a place's text are the text of the place below, the root included |
| `Paths.VolumeOf` | programs/bang-install/src/main.rs:112-120 | a device's name is taken apart in the one way it can be, and is a whole disk if there is none |
| `Paths.VolumeReads` | programs/bang-install/src/main.rs:112-120 | a driver, a `p` and digits, with `/dev/` before them or without, is that volume of that driver |
| `Paths.WholeDisk` | programs/bang-install/src/main.rs:112-120 | and a name in which no `p` has nothing but digits after it is the whole of its disk |
| `Paths.VolumeNumber` | programs/bang-install/src/main.rs:203 | the saturating fold is the number, or the most that fits |
| `Manifest.Find` | tools/readmanifest.py:74-85 | the first block's requests, or none if and only if there is no block |
| `Manifest.FindAll` | tools/readmanifest.py:88-108 | the requests of the blocks at non-overlapping eighth bytes, each valid, one block's after another's in order; it ends on every input |
| `Manifest.AskedIsGathered` | tools/readmanifest.py:95-107 | what the scan asks for is what the blocks it finds ask for in turn |
| `Manifest.Report` | tools/readmanifest.py:111-128 | the first block's requests that have a kind are printed, and it fails when there are no requests in it |
| `Manifest.ShownExactly` | tools/readmanifest.py:124-127 | a request is shown as often as it is asked for, if it is of a kind, and never if it is not |
| `Manifest.ShownInOrder` | tools/readmanifest.py:124-127 | and they are shown in their order |
| `Manifest.EmptyBlock` | tools/readmanifest.py:16-19 | a block that asks for nothing, byte by byte |
| `Manifest.PrintedIsGrantedExactly` | tools/readmanifest.py:1-10 | that is what is granted if and only if no block after the first asks for anything |
| `Manifest.BlocksAreApart` | tools/readmanifest.py:95-107 | the blocks are whole, in bounds, at eighth bytes, ascending, and none over another |
| `Manifest.NoneIsMissed` | tools/readmanifest.py:95-107 | a valid block at an eighth byte is found, or is inside one that is |
| `Manifest.BlockBack` | tools/readmanifest.py:97-104 | a block as laid out is read as its requests |
| `Manifest.EveryBlockIsFound` | tools/readmanifest.py:88-108 | every request put into an image is found, in order, and nothing else, when nothing between the blocks looks like one |
| `Staging.EveryHistoryKeeps` | Makefile:134-254 | after any builds, each of any base install and ended or stopped at any file of any step, whatever is staged was in one of those base installs, is written down in a record, or generated - or is a cache a failed builder left |
| `Staging.BaseFileIsBackExactly` | tools/stage-coreutils.sh:34-39 | from any stage, a base file is back as a build begins if and only if coreutils was not staged under its name |
| `Staging.BaseIsBackExactly` | tools/stage-forget.sh:20-29 | and the stage begins as from nothing, but for what is generated, if and only if that is so of all of them and nothing else is there that is not written down |
| `Staging.WhatWasThereDoesNotMatter` | Makefile:134-254 | from any such stage a build that ends leaves the same files and records, and ends or not, as from nothing |
| `Staging.HistoryDoesNotMatter` | Makefile:134-254 | so whatever was built there before, of base installs with the same files in them if not the same contents; where a cache builder has failed before, if it builds its caches |
| `Staging.HistoryMattersExactly` | tools/stage-font-caches.sh:22-40 | and if it does not, after builds of base installs with the same files in them, if and only if it puts a file of its own over each stray cache |
| `Staging.AStrayCacheStays` | tools/stage-font-caches.sh:22-40 | a build whose cache builder failed leaves a cache that the next build keeps |
| `Staging.BaseStaysExactly` | tools/stage-coreutils.sh:34-39 | after any history of any base installs, a base file this build put nothing over is there, and the base's, if and only if coreutils was not staged under its name |
| `Staging.BaseStays` | Makefile:136-142 | so a file every base install has had is the base's unless this build recorded another in its place |
| `Staging.AGainedFileIsLost` | tools/stage-coreutils.sh:34-39 | a base install that gains a program coreutils had staged is without it |
| `Staging.LeftOverExactly` | tools/stage-forget.sh:2-12 | from any stage, a file neither the base's nor generated nor recorded by this build is there at the end if and only if it was there before, recorded nowhere, and is no cache that is built anew |
| `Staging.NothingIsLeftOver` | tools/stage-forget.sh:2-12 | so nothing but what an earlier base install had and this one lacks is in the stage that is not the base's, this build's by its records, or generated; stray caches are there only if a cache builder failed and this build builds none |
| `Staging.ADroppedFileStays` | Makefile:134-142 | a file of an earlier base install that this one lacks is there still |
| `Staging.CoredKeeps` | tools/stage-coreutils.sh:54-75 | a coreutils build takes nothing's place |
| `Staging.CoredExactly` | tools/stage-coreutils.sh:54-75 | it adds its programs whose names were not taken in either spelling, and in the end every program's name is there |
| `Staging.AsStays` | Makefile:227-238 | with a development set `as` is this system's own |
| `Holdings.WhatIsMadeIsThere` | tools/stage-packages.py:102-160 | at the end of a build that ends, the directory of lists holds the lists the lister gave for the rest of the stage, each with its content, and no other; the directory of caches likewise, where they are built; and the sweep, its sample and what cargo is told are what they should be |
| `Holdings.OverlayIsThere` | tools/stage-overlays.sh:21-36 | each file of an overlay is at its path with its content, and recorded, unless a later one of that path or a later step has it |
| `Holdings.SuiteFileIsThere` | Makefile:206-225 | each file of a suite is, by its name, in etc, usr/lib or usr/bin with its content, and recorded, unless a later one, an overlay or a later step is there |
| `Holdings.LandsInItsPlace` | Makefile:211-217 | a name that ends `.tests` goes to etc, one that begins `lib` and ends `.so` to usr/lib, and any other that may be run to usr/bin |
| `Holdings.ShareIsThere` | Makefile:195-201 | each file of the clients' data the glob takes is under usr with its content, and recorded, unless a later one, a suite, an overlay or a later step is there |
| `Holdings.ClientIsThere` | Makefile:184-194 | each client program is in usr/bin with its content, and recorded, likewise |
| `Holdings.CoreutilIsThere` | tools/stage-coreutils.sh:54-75 | each program the coreutils record names is the build's of that name, `ginstall` by the name of install, likewise |
| `Holdings.TakenInCapitals` | tools/stage-coreutils.sh:60-66 | a name is taken by a command of that name, or of that name in capitals with .ELF after it |
| `Holdings.BaseShowsThrough` | Makefile:195-201 | a base file is the base's where nothing is put over it, and the clients' data the glob passes over is put nowhere |
| `Holdings.AssemblerIsMoved` | Makefile:233-238 | a development set's `as` is in the directory of the target with its content, and recorded, and the command is this system's own |
| `Staging.Stage.Forget` | tools/stage-forget.sh:20-29 | the loops take out exactly what the records name |
| `Staging.Stage.Uncore` | tools/stage-coreutils.sh:34-39 | the script's first loop takes out what its record names |
| `Staging.Stage.StageCoreutils` | tools/stage-coreutils.sh:54-75 | and its second puts in what its function says |
| `Staging.Stage.StageClients` | Makefile:184-202 | the recipe's loop and copy, against their function, of which `Holdings.ShareIsThere` and `Holdings.ClientIsThere` say what it leaves |
| `Staging.Stage.StageSuites` | Makefile:206-225 | likewise, each file to the place its name calls for |
| `Staging.Stage.StageOverlays` | tools/stage-overlays.sh:21-36 | likewise, up to the first directory that is not there or the first file that cannot be copied |
| `Staging.Stage.MoveAssembler` | Makefile:233-238 | likewise |
| `Staging.Stage.CacheFonts` | tools/stage-font-caches.sh:22-40 | likewise; `Holdings.WhatIsMadeIsThere` says what is then there |
| `Staging.Stage.ListPackages` | tools/stage-packages.py:102-160 | the package lists of the build before are gone, and this one's are there |
| `Staging.Stage.Make` | Makefile:134-254 | the rule's steps in order, stopping where they stop, are the build function, and the rows of `Staging` and `Holdings` above say what it leaves |

## Left out

- Strap.Strap: says what is copied in all only of a root that no link leads to, with none in it on the way to anything listed; of any other it is said copy by copy. It ends well only of a server that refuses nothing it could do, since any other may refuse any request. Only bytes, links and directories are modelled: not modes, owners or times, nor the last pass that sets the directories' times.
- Strap.IsOwnRoot: an object's id is taken to be the place a path leads to; that a server gives no two places one id is assumed.
- Strap.CopyBytes: "does not end" is stated as using up any given number of the server's answers.
- Strap.Strapper.TakeFile: the buffer of remembered directories is a sequence with the buffer's capacity, and not an array written in place.
- Strap.CopyLink: a link's target is kept as far as a path's buffer holds it, which is what the program reads of it.
- Ownership.GiveOut: patterns are a predicate of package and path; the syntax of globs and the programs that test lists name are not modelled.
- Images.SameImageExactly: letters are those of ASCII.
- WireClient.Client.ReadEvents: takes whole `global` events for granted (see above); what lies past the end of one is read as zero.
- WireClient.Client.BindGlobal: says nothing of an interface name too long for the message buffer; none the client knows is.
- WireClient.Client.Introduce: the two requests sent there are not laid down; they are sent as `SendBytes` sends any.
- Window.CourteousFromTheStart: the condition on the compositor is an assumption, and so is that events for destroyed buffers are dropped, which libwayland does.
- Transcript.TranscriptIsTheLog: a look that misses a page leaves a gap, and of a transcript with gaps only `Transcript.EveryLookIsThere` and `Transcript.NothingElseIsThere` are said.
- Tone.Share: arithmetic is over the reals and an angle is its cosine and sine; rounding is not modelled, nor the reading of the WAV header or the verdict over several tones.
- Paths.Whole: the program ends with an error where the model returns nothing, and so in `Paths.Join`.
- Screen.Reader.Row: one font for all that is remembered is assumed; `screen_lines` takes it as an argument and does not look.
- Staging.Stage.Make: directories are not modelled, so not the case of a directory left from an earlier build where a file is to be copied; nor a file copied and not written down, as a build killed between the two or a copy that fails partway leaves one: such a file stays, and a coreutils program left so is kept from then on as the base's would be. A staged program's content is what it is once stripped, and a link's is what it leads to. What the kernel's and the userland's installs, fontconfig's cache builder, the sweep's generator and the package lister write is given as functions of the stage.
- The server's behaviour - how many links it follows, that a read gives something while there is something, that a write may take nothing - is assumed; the kernel, the file server and their libraries are not part of this model.
- The choice of hostile arguments in `wlfuzz` is random by design: a choice below n is any number below n.
- Cairo painting, font lookup, the screenshot format, the sending of keys and the driving of QEMU are input and output around the parts modelled here.
- The copy loop of `bang-install` is strap's with an exit for every failure; the account and rights programs rest on libraries that are not part of this model.
- What `describe` prints of a request, and the other listings of `qpkg`, are formatting.
