# Attack Shark for Linux: a model of its protocols

This project models the parts of the desktop application where something must hold over every run, whatever
fails and whenever: the replacement of the installed AppImage, the choice of an update, the HID commands and
macro uploads, the encoding and admission of macros, the profile files, the inventory of devices, the switch
of a profile on the hardware, the signed policy envelopes, the process watcher and the lanes of automatic
settings. `dafny verify dfyconfig.toml` checks all of it.

Code that changes things step by step is a class with methods or a method with loops. Each of them is proved
against a function of its inputs or of the old state, and the lemmas beside it say what that function means:
which of two versions is newer, which bytes stand where, which device is selected, what a renaming changes, what
a lane reports. They say it in numbers, characters, bytes and indices, so that they hold of no other function.
What the program cannot control is nondeterministic in the methods or a parameter: whether a system call
fails, when the power goes or the process is killed, what a report contains, when a timer fires, when the
selection changes, whether a switch succeeds. Where the order of what was done matters, a ghost log records it
and the contracts say what is in it.

## The modules

- `DurableDirectory`: a directory with entries that reach the disk only when it is synced, and files whose
  contents do. A loss of power keeps a prefix of the unsynced operations on an ordered disk and any of them on
  another one. Syncs may fail and the process may be killed, unless the circumstances are said to be steady.
  Both disks are used by the next two modules.
- `Updater`: replacing and recovering the AppImage. `trusted` is any set of complete images; every method
  keeps, after every system call, that a crash leaves one of them installed or recoverable, but for one step
  whose exact condition is `RecoveryLosesIff`.
- `ProfileFiles`, with `Profiles` for what the files mean: the profile store. `possible` is the set of stores
  a crash may leave; every operation adds at most its own complete result to it, and a success leaves only
  that. When operations of failed calls are still unsynced on a disk that is not ordered, their indexes and
  configurations may also be found apart; still, whatever a run of calls may leave is what complete, permitted
  changes lead to, on either disk (`ProfileFiles.AnyRun`).
- `Versions`, over `Text`: version strings, their precedence (section 11 of Semantic Versioning 2.0.0) and the
  choice of a manifest.
- `TurnArbiter`: who may use the device, over all interleavings. `Resend` and `MacroUpload`: one command with
  its repeated writes, and the composite upload with the progress it reports.
- `MacroBlocks`, `MacroCodec`, `MacroAdmission`, `MacroRecorder`: the 128-byte block, its framing, the two gates
  that decide what may be uploaded, and the recorder. The table of key codes is a parameter; what a theorem
  needs of it is its precondition.
- `DeviceService` and `ProfileSwitch`: the selected device, and the four steps that bring a profile to it.
- `Envelope`, over `Base64` (section 4 of RFC 4648): the text of signed artifacts. Digest and signature check are
  parameters.
- `Procwatch`: the watcher. `ApplyLanes`: the lanes of automatic settings.

## What the code does not promise

These are facts about the code, each with an input that shows it, and next to each the exact condition under
which the code does what one might expect.

- A recovery drops the backup when it finds an installed image beside it. If the rename that put the image
  there is not synced yet, a disk that reorders operations can lose both images. That state is reached when the
  sync after the rename fails, and also when the process is killed before it, and both runs are given call by
  call (`Updater.LossIsReachable`). An image is left exactly if the installed name is durable when the backup
  goes (`Updater.DroppingBackupIff`, and `Updater.RecoveryLosesIff` in terms of the unsynced operations). It
  always is on an ordered disk, and on any disk as long as no sync fails and no process is killed
  (`Updater.NeverRisky`).
- The directory of the profiles is created, and never made durable in its parent. A loss of power may take it
  and every store in it, also after a success, exactly if its entry was not durable before
  (`ProfileFiles.NewDirectoryMayVanish`).
- Selecting a device that is not loaded yet replaces what its lanes count as applied by what the disk has, also
  during a switch. A switch may then succeed although a lane it has set counts as having another value
  (`ProfileSwitch.ReselectionUndoesStep`, with the log of a successful switch). Selecting leaves the lanes alone
  exactly if the device is loaded or has no lanes or is not eligible (`ProfileSwitch.SelectingKeepsLanesIff`), and
  the lanes are exactly those of the completed steps for every device that was loaded before the switch, or is not
  selected during it (`ProfileSwitch.Service.SwitchProfile`).
- A profile that somebody chooses after the watcher has looked and before it restores the previous one is
  overridden; it is kept exactly if there is nothing else to restore or the restoring fails
  (`Procwatch.LateChoiceIsKeptIff`).
- The priority flag of commands is not a counter. With two overlapping commands the listener can get the turn
  between them (`TurnArbiter.ListenerOvertakes`); it gets a free turn exactly when the last command to begin or
  finish has finished (`TurnArbiter.ListenerIsGranted`).
- The automatically selected device may have no eligible entry in the inventory, because a later candidate with
  its identity replaces it (`DeviceService.SelectionMayBeUnusable`); it has one exactly when no later candidate
  has that identity (`DeviceService.AutomaticSelectionIsUsable`). A validator that changes its answer can make
  two devices eligible under one identity (`DeviceService.FickleValidator`); they are exactly when two trusted
  candidates of an identity pass the second test of which only one candidate passed the first
  (`DeviceService.SharedIdentityIff`).
- A crash inside the first `Bootstrap` may leave a directory without an index (`ProfileFiles.BootstrapMayBlock`,
  call by call), and no later call seeds one: Bootstrap succeeds without a store exactly for a directory that was
  never made, failures aside (`ProfileFiles.ProfileStore.Bootstrap`).
- Loading accepts two profiles of one name (`ProfileFiles.LoadIgnoresNames`). A store that loads is sound exactly
  if its names are unique (`ProfileFiles.LoadedIsSoundIff`), which the operations keep.

## Model

| member | source | states |
|---|---|---|
| Updater.HaltKeepsInv | internal/update/updater.go:152-238 | Any power loss on either disk, and any kill, leaves a directory in which the installed image is a complete trusted one, or is absent while the marker and a complete backup are there. |
| Updater.AllowedKeepsInv | internal/update/updater.go:214-235 | Which operations are safe at which moment: one that is harmless among whatever entries may survive before it keeps every surviving directory safe. |
| Updater.DroppingBackupIff | internal/update/updater.go:347-357 | The backup may be dropped if and only if the installed name is there in whatever may survive of the operations before. |
| Updater.RecoveryLosesIff | internal/update/updater.go:339-357 | With marker, image and backup in sight, some loss of power leaves no image if and only if an unsynced operation may leave the installed name out of what survives. |
| Updater.NeverRisky | internal/update/updater.go:220-235 | That is never so on an ordered disk, nor as long as syncs succeed and only a loss of power stops the program, nor right after a sync. |
| Updater.CallsToSwapAreApplys | internal/update/updater.go:184-231 | The calls of the losing run are those that an update makes up to the sync of its second rename. |
| Updater.TemporaryKeepsInv | internal/update/updater.go:184-196 | Creating and removing the temporary file is safe at any moment, whatever else is unsynced. |
| Updater.EndKeepsInv | internal/update/updater.go:389-420 | However a system call ends (done, failed, or a crash before or after it) the invariant holds if it holds where the call was going. |
| Updater.RestartFindsImage | internal/update/updater.go:339-367 | Whatever the moment of the crash, one recovery later a complete trusted image is installed. |
| Updater.FreshInstallation | internal/update/updater.go:240-249 | A plain installation meets the invariant, so the theorems are about something. |
| Updater.LossIsReachable | internal/update/updater.go:226-235 | From a plain installation, a run of system calls in which only that sync fails, or the process is killed before it, and in which the next recovery and a loss of power leave neither image nor backup. |
| Updater.Updater.UnlinkAt | internal/update/updater.go:403-408 | Removes a name without leaving the invariant; failure changes nothing. |
| Updater.Updater.RenameAt | internal/update/updater.go:410-414 | Moves a name without leaving the invariant; failure changes nothing. |
| Updater.Updater.SyncUpdateDirectory | internal/update/updater.go:358-366 | A sync makes everything durable, or fails and changes nothing; under steady circumstances it succeeds unless the power goes. |
| Updater.Updater.CreateAt | internal/update/updater.go:326-337 | Exclusive creation of the temporary file or the marker, under a name that was free. |
| Updater.Updater.SyncFileAt | internal/update/updater.go:198-213 | Afterwards a crash keeps the contents of the file; no entry changes. |
| Updater.Updater.FillFile | internal/update/updater.go:198-213 | Success means that the whole contents were written, found valid and made durable; no other file and no entry changes, and the calls made are a beginning of the fixed list. |
| Updater.Updater.PublishFile | internal/update/updater.go:207-216 | Afterwards nothing is unsynced and the directory holds the file under its name. |
| Updater.Updater.Recover | internal/update/updater.go:240-249 | From any state a run may have left, on either disk: success leaves an installed image and no marker, an installation without a marker is left alone, and images are at stake only if the backup was dropped while the state was risky. |
| Updater.Updater.RecoverInstallation | internal/update/updater.go:339-367 | The backup takes the installed name if that is free and is dropped otherwise, and the marker goes, by these calls in this order; every step keeps the invariant but the dropping of a backup in a risky state. |
| Updater.Updater.SettleBackup | internal/update/updater.go:347-357 | The first half of a recovery: the marker is still there and, but for it, the entries are those of a recovered installation. |
| Updater.Updater.DropBackup | internal/update/updater.go:352-357 | Unlinks the backup beside an installed image; images are at stake only if the state was risky. |
| Updater.Updater.ClearMarker | internal/update/updater.go:358-366 | The marker goes only after the settled directory is durable. |
| Updater.Updater.PrepareTemporary | internal/update/updater.go:184-216 | Success means that the temporary file durably holds contents with the digest of the release, and that the installation is untouched; says whether the cleanup was registered. |
| Updater.Updater.UnlinkTemporary | internal/update/updater.go:184-196 | Afterwards the temporary name is free and nothing else has changed. |
| Updater.Updater.WritePending | internal/update/updater.go:369-387 | Adds the marker, durably, and nothing else. |
| Updater.Updater.RenameDurably | internal/update/updater.go:220-231 | A rename and its sync; success leaves nothing unsynced. |
| Updater.Updater.SwapImages | internal/update/updater.go:220-231 | The installed image becomes the backup and the temporary file the installed image. |
| Updater.Updater.Install | internal/update/updater.go:184-236 | All steps of an update up to the swap, by these calls in this order; once the temporary file was created the last call, whatever failed, is its removal. |
| Updater.Updater.Replace | internal/update/updater.go:184-236 | Success leaves exactly the installed name, with the downloaded image, whose digest is the release's; after a failure the temporary file is removed unless removing it fails. |
| Updater.Updater.Apply | internal/update/updater.go:152-238 | Applies only an approved, verified and unused update whose download has the promised digest; otherwise the update stays unused, and without approval nothing is touched. Only images with that digest become trusted. Each refusal comes exactly for its cause: no approval, an update that is missing or not verified, one that was applied before, no transport; then the disk is as before. |
| Updater.AnyRun | internal/update/updater.go:152-249 | Any run of Apply and Recover on either disk, with failures, syncs included, kills and losses of power anywhere: only a first image or one with the digest of an update can be found installed or recoverable, and one always is, unless a recovery dropped a backup in a risky state, which no ordered disk and no steady run has. |
| Updater.AnyCall | internal/update/updater.go:152-249 | One call of such a run, with any arguments, or a halt: a backup is put at stake only in a risky state. |
| Versions.ParsePrint | internal/update/contract.go:165-224 | Parsing what is printed gives back the version, for every version of the grammar. |
| Versions.PrintParse | internal/update/contract.go:165-224 | Whatever parses is printed as it was written, but for a leading v, and is within the grammar. |
| Versions.ValidateIdentifiers | internal/update/contract.go:209-221 | The loop accepts exactly the lists whose every identifier is valid. |
| Versions.ParseVersion | internal/update/contract.go:176-224 | The parser as written accepts exactly the strings that are printed versions. |
| Versions.NumeralOrder | internal/update/contract.go:275-280 | Comparing numerals by length and then as text is comparing them as numbers. |
| Versions.PrecedenceIsTotalPreorder | internal/update/contract.go:251-299 | Precedence is antisymmetric in sign and transitive, and zero exactly for versions that differ in build metadata only. |
| Versions.CompareParsed | internal/update/contract.go:251-299 | The loops compute the precedence of section 11, whose direction the next rows state: numbers first, then pre-releases, identifier by identifier. |
| Versions.CompareVersions | internal/update/contract.go:114-124 | Fails exactly when one of the strings is no version; otherwise negative, zero or positive as the first one precedes, equals or follows the second. |
| Versions.NumbersDecide | internal/update/contract.go:251-259 | The smaller number at the first differing one of major, minor and patch comes first, whatever pre-releases and build metadata say. |
| Versions.ReleaseComesLast | internal/update/contract.go:260-268 | A pre-release comes before its release. |
| Versions.IdentifiersDecide | internal/update/contract.go:269-298 | At the first differing identifier the smaller number comes first, a number before text, text by its first differing character; if there is none, the shorter list comes first. |
| Versions.IdentifiersAre | internal/update/contract.go:226-249 | Which strings are identifiers, which of them a pre-release may have, and that the three numbers have 64 bits. |
| Versions.ReadAsWritten | internal/update/contract.go:165-224 | What the fields of a version with all parts are. |
| Text.TextDecides | internal/update/contract.go:281-290 | Text is ordered by its first differing character, and a proper prefix comes first. |
| Text.DecimalPlaces | internal/update/contract.go:230-240 | Another digit multiplies the number by ten and adds its value. |
| Versions.ChannelIs | internal/update/updater.go:258-270 | Stable versions are those without a pre-release; candidates are those whose pre-release is rc and a number; nothing else has a channel. |
| Versions.ChannelOrder | internal/update/contract.go:251-299 | Within a channel the three numbers decide, and for candidates the fourth. |
| Versions.EligibleIs | internal/update/updater.go:111-126 | A manifest may be selected exactly if it has the channel of the installed version and a newer version by those numbers, or one as new if that is asked for. |
| Versions.SelectedIsNewest | internal/update/updater.go:98-148 | The selected manifest is newer than the installed version by those numbers, or as new if that is asked for; none of the channel is newer, and none before it is as new. |
| Versions.OneMoreManifest | internal/update/updater.go:111-139 | A first maximum of a list stays one, or the last manifest becomes it, when the list grows. |
| Versions.SelectManifest | internal/update/updater.go:98-148 | Returns the first of the greatest eligible manifests of the channel, which SelectedIsNewest describes in numbers, or the sentinel of the channel exactly when there is none; each error exactly when its cause is there. |
| TurnArbiter.Turns.TryAcquire | internal/hidlinux/hidraw_passive.go:457-475 | The check step: the turn is granted exactly when nobody has it and, for the listener, no command is announced, and then nobody else has it; otherwise the caller waits on the current channel. |
| TurnArbiter.Turns.Release | internal/hidlinux/hidraw_passive.go:477-484 | The release step of the relation: afterwards whoever was waiting can go on, the new channel is open and nothing has panicked. |
| TurnArbiter.Turns.Announce | internal/hidlinux/hidraw_passive.go:486-492 | The step that begins a command, with the same guarantees for those who wait. |
| TurnArbiter.Turns.Withdraw | internal/hidlinux/hidraw_passive.go:505-512 | The step that ends a command, with the same guarantees for those who wait. |
| TurnArbiter.Turns.AcquireIO | internal/hidlinux/hidraw_passive.go:457-475 | The waiting loop, with any steps of other processes in between: it ends with the turn, which nobody else has then, or cancelled, and sleeps on an open channel only while the turn is denied to it. |
| TurnArbiter.Turns.BeginCommand | internal/hidlinux/hidraw_passive.go:486-503 | A command announces itself before it waits, ends up with the turn, and withdraws after a cancelled wait. |
| TurnArbiter.Turns.EndCommand | internal/hidlinux/hidraw_passive.go:499-512 | A command that is done gives the turn back and then withdraws. |
| TurnArbiter.Turns.Act | internal/hidlinux/hidraw_passive.go:457-512 | Every step of the relation is one call of the class, so that every run of the class is a run of the relation. |
| TurnArbiter.StepKeepsInv | internal/hidlinux/hidraw_passive.go:457-512 | Every step of every process keeps exclusion, the absence of lost wake-ups and that no channel is closed twice. |
| TurnArbiter.EveryRunIsSafe | internal/hidlinux/hidraw_passive.go:457-512 | Over every interleaving of any number of commands and listener turns: one holder at most, busy exactly when there is one, nobody asleep on an open channel who could go on, no panic. |
| TurnArbiter.NobodyIsStuck | internal/hidlinux/hidraw_passive.go:457-512 | While somebody waits, some process can go on without a new request or a cancellation. |
| TurnArbiter.OneCommandIsAnnounced | internal/hidlinux/hidraw_passive.go:486-512 | With one outstanding command the flag is set exactly while it is active. |
| TurnArbiter.ListenerKeepsOff | internal/hidlinux/hidraw_passive.go:457-512 | With one outstanding command no listener turn starts between its beginning and its end. |
| TurnArbiter.FlagIsLastCommand | internal/hidlinux/hidraw_passive.go:486-512 | With any number of commands the flag says whether the last to begin or finish began. |
| TurnArbiter.ListenerIsGranted | internal/hidlinux/hidraw_passive.go:457-475 | When exactly a listener that asks gets the turn, over every run. |
| TurnArbiter.ListenerOvertakes | internal/hidlinux/hidraw_passive.go:505-512 | A run in which the listener gets the turn while a second command is waiting. |
| Resend.WokenKeepsInv | internal/hidlinux/resend.go:62-68 | Time may pass up to the next timer that is honoured without breaking the schedule of writes. |
| Resend.ResentKeepsInv | internal/hidlinux/resend.go:68-93 | Another copy keeps the number of writes, that each was due by what was read before it, and the deadlines. |
| Resend.ReceivedKeepsInv | internal/hidlinux/resend.go:94-111 | A report that is no acknowledgement keeps them too: the time of the next write is that of the first rejection since the last write, whatever follows it. |
| Resend.NoEarlyGivingUp | internal/hidlinux/resend.go:68-93 | With a silence delay below the read timeout, a program that honours its resend timer runs out of time only after the last copy or while it waits to answer a rejection. |
| Resend.CopyIsDue | internal/hidlinux/resend.go:45-93 | Why a copy was sent, by what the node saw: the resend delay after the first rejection since the last write or, without one, the silence delay after that write, not earlier and, for a punctual program, not later; four writes in all unless configured. |
| Resend.RejectionIs | internal/hidlinux/resend.go:170-174 | A rejection is 03 10 xx yy zz, but for heartbeats (xx is 40) and events of a DPI stage (xx is 10). |
| Resend.AwaitAck | internal/hidlinux/resend.go:33-121 | Whatever arrives and whenever timers fire: at most the allowed writes, all copies of the payload, each not before it is due by the trace before it, and exactly then if the resend timer is honoured; a failed write is the last thing done and is reported as such exactly then; success only on an acknowledgement, with no read left open; an end within attempts times the read timeout if the deadline is honoured. |
| MacroUpload.AwaitMacroStatus | internal/hidlinux/macro_upload.go:295-321 | Succeeds exactly on the final status and reads past known interleaved reports only. The final status is 03 10 50 00 09. |
| MacroUpload.AssignmentTrace | internal/hidlinux/macro_upload.go:261-270 | What the repeated assignment does to the node: copies of one report, at most the allowed number and each when it is due, ended by the acknowledgement exactly on success and by a failed write exactly if one failed. |
| MacroUpload.FailureIsLast | internal/hidlinux/macro_upload.go:244-293 | In a trace of these phases nothing follows a failed write, and when the final status came every write had succeeded. |
| MacroUpload.SendChunks | internal/hidlinux/macro_upload.go:271-284 | The chunks go out once each, in order and 1200 ms apart, up to the first that is not written whole, which ends the phase; it is complete only if all were, and the progress tells whether any was tried. |
| MacroUpload.SendAssignment | internal/hidlinux/macro_upload.go:215-293 | At every failure point the progress says exactly what the trace proves: no chunk before the acknowledgement 03 10 50 00 08, no status before every chunk was written whole, nothing after a failed write, and success exactly if the last read is 03 10 50 00 09 after all of that. |
| MacroUpload.PhasesInBytes | internal/hidlinux/macro_upload.go:244-340 | Every such trace byte by byte: without a read of 03 10 50 00 08 there is no chunk and no status, so that an early 03 10 50 00 09 authorizes nothing; chunks are 1,200,000,000 ns apart; which reports the status phase reads past; and which reports confirm the assignment and the upload. |
| MacroBlocks.Checksum | internal/macros/x6codec.go:71-79 | The sum of the 126 bytes, which sixteen bits always hold. |
| MacroBlocks.SumOf | internal/macros/x6codec.go:71-79 | Every byte counts once. |
| MacroBlocks.PairsLength | internal/macros/x6timing.go:66-72 | Every event takes one pair and every long delay one more. |
| MacroBlocks.FillBlock | internal/macros/x6timing.go:74-78 | Mode, repeat count, pairs and checksum are in their places and every other byte is zero. |
| MacroBlocks.SealedBytes | internal/macros/x6timing.go:74-78 | Byte by byte: mode at 0, repeat count at 4, number of pairs at 25, pairs from 26, zeros elsewhere, and in the last two bytes the sum of the others, high byte first. |
| MacroBlocks.EncodeEvent | internal/macros/x6timing.go:46-69 | The pairs of one event: an odd opcode below 0x80 before the action bit, and a second pair for a long delay. |
| MacroBlocks.EventPairsAre | internal/macros/x6timing.go:46-69 | The code, the action bit, the odd opcode and the steps of 200 ms of an event, which wait as long as the source to within -4 and +15 ms; only one opcode fits. |
| MacroBlocks.PairsAre | internal/macros/x6timing.go:46-72 | Events are encoded in order, each with its own delay but the last with 10 ms, and each delay from 1271 ms on costs an extension. |
| MacroBlocks.EncodeTimedBlock | internal/macros/x6timing.go:21-79 | The encoder accepts exactly the encodable takes and returns their block. |
| MacroBlocks.EncodableIs | internal/macros/x6timing.go:21-72 | The limits in numbers: 1 to 46 events, repeat counts 1 to 255, three modes, delays below 51200 ms, ten extensions, fifty pairs. |
| MacroBlocks.KeyBlock | internal/macros/x6timing.go:21-79 | The bytes of a captured take: a key pressed and released. |
| MacroBlocks.BlockIsReadable | internal/macros/x6timing.go:21-79 | Mode, repeat count, codes, actions and rounded delays can be read back from every block, if no code is 3. |
| MacroBlocks.DelayError | internal/macros/x6timing.go:50-69 | The encoded delay differs from the source by between -4 and +15 ms. |
| MacroBlocks.BlockDeterminesEvents | internal/macros/x6timing.go:21-79 | Takes with the same block agree in everything but delays, which differ by less than 20 ms. |
| MacroCodec.EncodeFraming | internal/macros/x6codec.go:195-206 | The three reports hold the block in pieces behind their headers, padded with zeros. |
| MacroCodec.FramedBytes | internal/macros/x6codec.go:167-206 | Byte by byte: the headers, the destination, where each byte of the block is, and zeros behind it; destinations are 1 to 8 but for 4. |
| MacroCodec.DecodeFraming | internal/macros/x6codec.go:241-269 | Accepts exactly the framings of a block for a known destination and returns both. |
| MacroCodec.FramingIsInjective | internal/macros/x6codec.go:195-206 | Reports determine destination and block. |
| MacroCodec.CodeOf | internal/macros/x6codec.go:110-120 | The search finds the code of a button, or 0 exactly when it is none. |
| MacroCodec.ButtonsAre | internal/macros/x6codec.go:95-125 | The code of each button by name, and the pairs of a click, in order. |
| MacroCodec.SequencesAre | internal/macros/x6codec.go:97-120 | Which sequences are valid, by name and number. |
| MacroCodec.EncodeSequenceBlock | internal/macros/x6codec.go:97-126 | Accepts exactly one or two clicks of buttons with a valid repeat count and mode. |
| MacroCodec.SequenceReads | internal/macros/x6codec.go:97-126 | Every field of a sequence can be read off its block. |
| MacroCodec.DecodeSequenceBlock | internal/macros/x6codec.go:128-154 | The inverse of the encoder, and nothing but encodings is accepted. |
| MacroCodec.EncodeSequenceUpload | internal/macros/x6codec.go:156-165 | Accepts exactly the valid uploads. |
| MacroCodec.DecodeSequenceUpload | internal/macros/x6codec.go:241-275 | Inverts the encoding of uploads, and any report list it accepts is the encoding of its result. |
| MacroCodec.UploadIsInjective | internal/macros/x6codec.go:156-206 | Different uploads give different reports. |
| MacroAdmission.Validate | internal/macros/library.go:118-143 | The loop accepts exactly the event lists whose every event is well formed. |
| MacroAdmission.MapLocalEvents | internal/macros/x6local.go:12-37 | Maps every event to its code, or fails exactly when one has none. |
| MacroAdmission.MappedIs | internal/macros/x6local.go:12-37 | Which events can be mapped, by the names of their types and actions, and to which code, action and delay. |
| MacroAdmission.HeldDecides | internal/macros/x6admission.go:31-48 | The map of held codes decides whether an event fits the events before it, if identities tell the inputs of a code apart. |
| MacroAdmission.HostBalance | internal/macros/x6admission.go:31-51 | The loop over the held map decides balance as defined on the events: only a free code is pressed, only its holder releases it, and all are free in the end. |
| MacroAdmission.BalancedIff | internal/macros/x6admission.go:31-51 | A take is balanced if and only if every release comes after a press, and every press before a release, of the same input with nothing of their code in between. |
| MacroAdmission.AdmitLocalBlock | internal/macros/x6admission.go:25-53 | Succeeds exactly on admissible takes and returns their block. |
| MacroAdmission.EncodeLocalUpload | internal/macros/x6admission.go:10-19 | Frames that block for a known destination and fails otherwise. |
| MacroAdmission.DeviceAdmission | frontend/src/macros/device-admission.ts:10-46 | The interface's gate, with its shorter identities and its own counting, is eligible exactly on admissible takes. |
| MacroAdmission.GatesAgree | frontend/src/macros/device-admission.ts:10-46 | The two gates admit the same takes, for every event list, repeat count and mode. |
| MacroAdmission.AdmittedSequence | internal/desktop/macro_assignment.go:36-53 | The legacy route takes exactly one or two complete clicks without delays that the sequence encoder accepts. |
| MacroAdmission.ClicksAre | internal/desktop/macro_assignment.go:36-53 | What a click is, field by field, and what one and two of them give. |
| MacroAdmission.LegacyRouteIsLocal | internal/desktop/macro_assignment.go:36-53 | Whatever the legacy route takes the local one admits, with the identical block. |
| MacroRecorder.CaptureInput | frontend/src/macros/recorder.ts:15-26 | The edit of the copied take is the capture function: repeats and stray releases are dropped, the delay of the last press is filled in at the next. |
| MacroRecorder.OneMoreInput | frontend/src/macros/recorder.ts:15-26 | Over every stream: an input that repeats the last word about itself, or releases what was not pressed, adds nothing; any other adds exactly its own event, with 10 ms under the fixed policy, and leaves the earlier ones alone but for a delay under the recorded one. |
| MacroRecorder.ReleasesAre | frontend/src/macros/recorder.ts:28-33 | Stopping adds one release for each held input, in the order of the presses. |
| MacroRecorder.ElapsedIs | frontend/src/macros/recorder.ts:18-20 | A recorded delay is the time between the two presses to the nearest millisecond, the later of two, and never negative. |
| MacroRecorder.CaptureKeepsInv | frontend/src/macros/recorder.ts:15-26 | Capturing keeps that presses and releases alternate and that `held` lists exactly the inputs that are down, once each. |
| MacroRecorder.RecordKeepsInv | frontend/src/macros/recorder.ts:11-26 | The same over every stream of inputs and times. |
| MacroRecorder.StoppedTakeIsComplete | frontend/src/macros/recorder.ts:27-33 | Whatever the stream, a stopped take alternates, ends with everything released and has no negative delay. |
| MacroRecorder.DelaysAreBetweenPresses | frontend/src/macros/recorder.ts:18-23 | Under the recorded policy, over every stream: a press waits the rounded time until the next press of any input, and nothing else waits. |
| MacroRecorder.HolderIsPressed | internal/macros/x6admission.go:31-48 | On a covered take, a code is held exactly when the input with that code is down. |
| MacroRecorder.CompleteIsBalanced | internal/macros/x6admission.go:31-51 | A complete take that the table covers with distinct codes passes the held-key check. |
| MacroRecorder.RecordedTakeIsAdmitted | frontend/src/macros/recorder.ts:11-33 | Under the fixed and the minimum policy such a take is admitted exactly when it has 1 to 46 events and the repeat count and mode are in range. |
| MacroRecorder.RecordedDelaysDecide | frontend/src/macros/recorder.ts:18-20 | Under any policy only what the encoder checks can still keep it out. |
| Profiles.ChangedIsSound | internal/configstore/profiles.go:264-376 | Every permitted change keeps IDs and names unique, the active profile listed and a configuration for every listed profile. |
| Profiles.IndexChangesAre | internal/configstore/profiles.go:301-330 | A rename names the profile with that ID, a switch makes it active, a dismissal empties the notice, and each of them leaves everything else as it is, in its place. |
| Profiles.OtherChangesAre | internal/configstore/profiles.go:191-376 | Where a clone stands and what it has, what a deletion takes and leaves, what a save replaces and what a seed is. |
| Profiles.PermittedIs | internal/configstore/profiles.go:238-376 | Which changes are permitted, by the IDs and names of the index. |
| Profiles.NamesAre | internal/configstore/profiles.go:74-84 | Which names are valid: their length, their characters by number, their ends, and the two that are not. |
| Profiles.IDsAre | internal/configstore/profiles.go:70-73 | IDs are 32 lower-case hexadecimal digits. |
| Text.SpacesAre | internal/configstore/profiles.go:64-75 | The 25 characters that trimming removes. |
| Profiles.ChangesKeepConfigurations | internal/configstore/profiles.go:264-376 | No change touches the configuration of another profile than the active one that is saved. |
| Profiles.RunKeepsStore | internal/configstore/profiles.go:264-376 | Over every run of changes a store stays sound, and one that exists stays with its hardware profile. |
| Profiles.MixIsReachable | internal/configstore/profiles.go:264-354 | Whatever complete changes lead to, they also lead to it with any other configurations: switching, saving and switching back reaches each. |
| ProfileFiles.HaltKeepsInv | internal/configstore/profiles.go:149-180 | A loss of power on either disk, or a kill, leaves one of the possible stores, whatever is unsynced. |
| ProfileFiles.SyncDecides | internal/configstore/profiles.go:174-179 | After a successful sync only one store is possible. |
| ProfileFiles.PublishKeepsInv | internal/configstore/profiles.go:171-173 | Renaming a durable temporary file publishes its contents under the lasting name and nothing else. |
| ProfileFiles.PublicationCoheres | internal/configstore/profiles.go:171-179 | On a disk that reorders operations: publishing an index whose profiles are in every surviving directory, or a profile under its own ID, keeps that the profiles any surviving index lists are in every surviving directory. |
| ProfileFiles.RemovalKeepsInv | internal/configstore/profiles.go:370-375 | Removing a file that the durable index does not list adds no store to the possible ones. |
| ProfileFiles.IndexIsPublishable | internal/configstore/profiles.go:331-342 | The index of a change that lists no new profile may be published at any moment, whatever is unsynced. |
| ProfileFiles.SaveIsPublishable | internal/configstore/profiles.go:343-354 | So may the file of the active profile. |
| ProfileFiles.ProfileIsPublishable | internal/configstore/profiles.go:291-294 | And the file of a new profile. |
| ProfileFiles.NewIndexIsPublishable | internal/configstore/profiles.go:295-299 | The index that lists a new profile may be published once the profile is durable. |
| ProfileFiles.OrderedIsQuiet | internal/configstore/profiles.go:149-180 | On an ordered disk, and on any disk after a success, whatever survives before the next operation holds the store of the moment, so that the next change can only add its own result. |
| ProfileFiles.IndexMixes | internal/configstore/profiles.go:331-342 | An index that is published over whatever survives of failed calls gives that index with configurations of surviving files. |
| ProfileFiles.ConfigurationMixes | internal/configstore/profiles.go:343-354 | So does the file of a profile: an index that was possible, and known configurations. |
| ProfileFiles.NewDirectoryMayVanish | internal/configstore/profiles.go:154-156 | As the parent is never synced, a loss of power may take the new directory, whatever was synced in it, if and only if its entry was not durable before. |
| ProfileFiles.UnlistedIsInvisible | internal/configstore/profiles.go:291-294 | A profile file that no index lists makes no difference to what is loaded. |
| ProfileFiles.IndexCompletes | internal/configstore/profiles.go:291-299 | Publishing the new index, after the new profile if there is one, completes the change. |
| ProfileFiles.SavingCompletes | internal/configstore/profiles.go:343-354 | Publishing the active profile's file completes a save. |
| ProfileFiles.RestartFindsStore | internal/configstore/profiles.go:88-125 | Whatever the moment of the crash, there is no index or one that loads, and it is one of the possible stores. |
| ProfileFiles.ContentsAre | internal/configstore/profiles.go:88-142 | When files are a store and which one: the index lists at least one profile, no ID twice and the active one, IDs and names are valid, and every listed profile has a readable file with its own ID, whose configuration it has. |
| ProfileFiles.RefusalsAre | internal/configstore/profiles.go:264-376 | Which refusal is given for which change. |
| ProfileFiles.ProfileStore.ReadLocalProfile | internal/configstore/profiles.go:126-142 | Returns the configuration of the profile, or an error exactly for a bad ID, a missing file or one of another profile, or because reading failed. |
| ProfileFiles.ProfileStore.Load | internal/configstore/profiles.go:88-125 | On any directory, damaged or not: success exactly when index and files pass every check for this hardware profile, failures of reading aside, and it returns the index. |
| ProfileFiles.ProfileStore.MakeDirectory | internal/configstore/profiles.go:154-156 | The directory is there after a success, no entry in it changes, and nothing of its own entry becomes durable. |
| ProfileFiles.ProfileStore.FillTemp | internal/configstore/profiles.go:157-170 | Success means a durable temporary file with the record, under a name that stands for it in whatever survives; nothing with a lasting name changes. |
| ProfileFiles.ProfileStore.Publish | internal/configstore/profiles.go:171-179 | Success leaves nothing unsynced and the record under its name; an error may come before or after the publication. |
| ProfileFiles.ProfileStore.RemoveTemp | internal/configstore/profiles.go:161-161 | The deferred removal changes nothing that has a lasting name, and if it works the temporary name is free. |
| ProfileFiles.ProfileStore.Replace | internal/configstore/profiles.go:157-180 | Fills and publishes a temporary file; once it was created the last call is its removal. |
| ProfileFiles.ProfileStore.WriteProfileJSON | internal/configstore/profiles.go:149-180 | Replaces one file atomically: old or new contents, the new ones and durable on success; a temporary file is removed in the end. |
| ProfileFiles.ProfileStore.FindProfile | internal/configstore/profiles.go:246-253 | The loop finds the position of a profile, or -1 exactly when it is not listed. |
| ProfileFiles.ProfileStore.FindName | internal/configstore/profiles.go:238-245 | Whether another profile has exactly this name. |
| ProfileFiles.ProfileStore.NewProfileSummary | internal/configstore/profiles.go:181-187 | A new profile with a valid ID that is not in use. |
| ProfileFiles.ProfileStore.ChangeIndex | internal/configstore/profiles.go:301-330 | The edit of the index succeeds exactly when the change is permitted. After a success a rename has renamed that profile, a switch has moved the active ID and a dismissal has emptied the notice, and nothing else has changed. |
| ProfileFiles.ProfileStore.Update | internal/configstore/profiles.go:301-342 | Rename, switch and dismissal: done is the changed store and only that is possible then; a refusal changes nothing on the disk and names the first check that failed; an error leaves the store before or after; a crash adds at most the store after, and what is unsynced of failed calls before may be found apart on a disk that is not ordered. After a rename the same profiles are listed in the same order, the one with that ID has the new name, and every other name, date, ID, the notice and all configurations are as before; likewise for a switch and for a dismissed notice. |
| ProfileFiles.ProfileStore.List | internal/configstore/profiles.go:217-222 | Returns the index of this hardware profile's store and changes nothing. |
| ProfileFiles.ProfileStore.Read | internal/configstore/profiles.go:223-234 | Returns the configuration of a listed profile and changes nothing. |
| ProfileFiles.ProfileStore.PublishNewProfile | internal/configstore/profiles.go:291-299 | The file of a new profile and then the index: the store before or the complete change, at every step. |
| ProfileFiles.ProfileStore.CloneProfile | internal/configstore/profiles.go:255-300 | Create and duplicate, with the guarantees of Update: the clone has the source's configuration and becomes active exactly when asked. |
| ProfileFiles.ProfileStore.Bootstrap | internal/configstore/profiles.go:189-216 | Seeds only a directory that was never made; an existing store is returned, everything else is refused, and a crash leaves no index or the complete first one. |
| ProfileFiles.ProfileStore.SaveActiveProfile | internal/configstore/profiles.go:343-354 | Replaces the active profile's configuration alone, with the guarantees of Update. |
| ProfileFiles.ProfileStore.DeleteProfile | internal/configstore/profiles.go:355-376 | Deletes a profile that is neither the last nor the active one, index first, with the guarantees of Update; after a success its file is gone. |
| ProfileFiles.ProfileStore.RemoveProfile | internal/configstore/profiles.go:370-375 | Removing the file of a profile that is no longer listed cannot make a store unloadable. |
| ProfileFiles.AnyCall | internal/configstore/profiles.go:191-376 | One call with any arguments, or a halt, leaves on either disk only stores that complete changes lead to; and only the store of the moment, if that was so before and the call did not end in an error or a kill. |
| ProfileFiles.AnyRun | internal/configstore/profiles.go:191-376 | The same over any run of calls on either disk, with failures, kills and losses of power anywhere; and as long as no call ended in an error and nothing was killed a crash leaves exactly the store of the moment. |
| ProfileFiles.ExistingStoreStays | internal/configstore/profiles.go:88-125 | After any such run, and whatever stops the program, a store that existed loads, under its hardware profile. |
| ProfileFiles.ReachableIsClosed | internal/configstore/profiles.go:191-376 | Whatever one change may add, mixes included, is among what complete changes lead to. |
| ProfileFiles.BootstrapMayBlock | internal/configstore/profiles.go:189-216 | A run of system calls of a first Bootstrap in which a loss of power leaves the new profile without an index. |
| ProfileFiles.LoadIgnoresNames | internal/configstore/profiles.go:88-125 | Two profiles of one name that pass every check of loading. |
| ProfileFiles.LoadedIsSoundIff | internal/configstore/profiles.go:88-125 | A store that loads has everything an operation keeps if and only if its names are unique. |
| DeviceService.TargetedService.Refresh | internal/mouse/service.go:298-372 | Both loops together compute the classification: revision, devices, known states and selection of the new inventory, the list returned and whether it is ambiguous; a failed enumeration changes nothing. A device is selected exactly if one index of the enumeration alone is eligible, and then it is that candidate's binding under the new revision. |
| DeviceService.TargetedService.CountIdentities | internal/mouse/service.go:304-313 | The counting pass counts, for every identity, the trusted candidates that passed. |
| DeviceService.TargetedService.Classify | internal/mouse/service.go:322-345 | One candidate's device, warning and eligibility. |
| DeviceService.ClassificationIs | internal/mouse/service.go:303-345 | Eligibility and each warning by the registry and the two answers of the validator: supported, passing the second time, trusted, and one candidate alone of that identity passed the first time. |
| DeviceService.SelectionIs | internal/mouse/service.go:346-364 | After an enumeration the selection is the one eligible candidate, if there is exactly one, and nothing otherwise. |
| DeviceService.LastCandidateCounts | internal/mouse/service.go:346-347 | An identity stands for its last candidate in the enumeration. |
| DeviceService.NoOtherDevice | internal/mouse/service.go:315-347 | And the inventory has no other devices. |
| DeviceService.KnownAre | internal/mouse/service.go:338-344 | A device has a state from the first enumeration in which it is eligible. |
| DeviceService.AmbiguousIs | internal/mouse/service.go:329-337 | The error about shared identities comes exactly if a candidate without a serial number, of a model that allows it, passes the second time and is not eligible. |
| DeviceService.TargetedService.Select | internal/mouse/service.go:418-428 | Selects exactly an eligible device of the inventory, under the current revision. The binding is that of the device that the identity stands for. |
| DeviceService.TargetedService.CompleteBound | internal/mouse/service.go:405-416 | A completion may be committed exactly while its binding is the selected one. |
| DeviceService.TargetedService.SelectedState | internal/mouse/service.go:541-557 | Returns the selection exactly when the inventory still has that eligible device under its identity. |
| DeviceService.EligibleIff | internal/mouse/service.go:322-345 | When the validator answers the same twice: eligible exactly when supported, trusted, valid and alone with its identity. |
| DeviceService.EligibleAreDistinct | internal/mouse/service.go:322-345 | No two eligible devices of one enumeration share an identity when the validator answers the same twice. |
| DeviceService.SharedIdentityIff | internal/mouse/service.go:303-345 | Whatever it answers: two eligible devices share an identity if and only if both of these trusted candidates pass the second test while exactly one candidate of the identity passed the first. |
| DeviceService.FickleValidator | internal/mouse/service.go:303-345 | A validator that changes its mind makes two devices eligible under one identity. |
| DeviceService.AutomaticSelectionIsUsable | internal/mouse/service.go:346-361 | The only eligible device is selected, and operations can use it exactly when no later candidate has its identity. |
| DeviceService.SelectionMayBeUnusable | internal/mouse/service.go:346-361 | Two candidates for which the selected device is not eligible in the inventory. |
| DeviceService.StepKeepsInv | internal/mouse/service.go:298-428 | Enumerations and selections keep that the selected binding is of an eligible device of the last enumeration, under its revision. |
| DeviceService.SelectionHasRevision | internal/mouse/service.go:387-428 | Over every run the selection has the revision of the inventory. |
| DeviceService.StaleForever | internal/mouse/service.go:405-416 | A binding selected before a successful enumeration is never selected again, over every run. |
| ProfileSwitch.Service.ApplyOperationBound | internal/mouse/service.go:489-507 | A report is sent only if its binding was selected when it was let through, and the operation succeeds only with an acknowledgement for this very binding; meanwhile the selection may change. |
| ProfileSwitch.Service.ApplyMacros | internal/mouse/service.go:253-274 | The same for an upload, which counts as acknowledged only when both of its parts are confirmed. |
| ProfileSwitch.Service.CompleteStep | internal/desktop/profiles.go:436-447 | Commits a step's values only while its binding is selected, and logs what was selected then; otherwise no lane changes. |
| ProfileSwitch.Service.SendMacros | internal/desktop/profiles.go:540-575 | The upload changes the progress alone; going on, and failing the lane, need the binding to be selected afterwards. |
| ProfileSwitch.Service.SendStep | internal/desktop/profiles.go:540-580 | A step is begun, sent and, when it was acknowledged, gone on with only under a check that its binding is selected; it changes no value in any lane. |
| ProfileSwitch.Service.SwitchStep | internal/desktop/profiles.go:424-447 | A step commits only after its check, its report, its own acknowledgement and another check, with the binding selected at the commit; failing marks its lane alone, and going stale marks nothing. It fails before its report was let through, or without its acknowledgement, and says which error it leaves. |
| ProfileSwitch.Service.SwitchSteps | internal/desktop/profiles.go:424-622 | The log of the switch is that of the completed steps in order and of the beginning of one more, all with the captured binding selected, and the lanes are exactly where the complete ones bring them. |
| ProfileSwitch.Service.RunSwitch | internal/desktop/profiles.go:424-666 | Quiesces the lanes, and the pointer is touched only after four committed steps; the lanes are those of the outcome. |
| ProfileSwitch.Service.CommitSwitch | internal/desktop/profiles.go:624-666 | The configuration is saved, and the pointer moves, only while the binding is selected, and the lanes learn whether it was saved. |
| ProfileSwitch.Service.Activate | internal/desktop/profiles.go:638-662 | The last critical section: the store is told to move its pointer only while the binding is selected. |
| ProfileSwitch.Service.SwitchActive | internal/configstore/profiles.go:319-327 | The store may have published the pointer although it reports an error. |
| ProfileSwitch.Service.SwitchProfile | internal/desktop/profiles.go:383-673 | With enumerations, selections that load devices from the disk, and edits between any two steps: every step that was committed was let through, sent, acknowledged and committed in order for the binding captured at entry, which was selected at each check and commit; the pointer moves only after all four, under the same inventory; every lane is exactly where the complete steps bring it and no other device is touched, but for devices that were not loaded and were selected meanwhile; and the final world is exactly the one that the recorded story of deeds and interferences leads to, every entry of which says what was selected then. Which error it returns: no selection, no readable profile, a step that was not let through or not acknowledged, a selection that changed, or a pointer that was not saved. |
| ProfileSwitch.LanesAfter | internal/desktop/profiles.go:440-622 | Each lane has the target's values if its step is complete, and else its own, applied and pending. |
| ProfileSwitch.LanesReport | internal/desktop/profiles.go:424-662 | For every outcome: the lanes of complete steps say succeeded and have no error until the end, those of the failed step and no others say failed with its code, later ones keep their report, and a pointer that was not saved is an error in all. |
| ProfileSwitch.LanesPersist | internal/desktop/profiles.go:440-662 | What the lanes say about the disk after a complete step and in the end, which values count as saved, and that the lighting keeps what it says. |
| ProfileSwitch.LanesAreQuiet | internal/desktop/profiles.go:355-381 | Every retry is called off, the DPI and polling lanes have a new revision, and the other revisions stay. |
| ProfileSwitch.TargetsAre | internal/desktop/profiles.go:476-545 | What goes to the mouse when the profile has no lighting or no buttons, and that the macros go with the buttons in their order. |
| ProfileSwitch.Service.SelectDevice | internal/desktop/inventory.go:124-177 | What selecting does to the selection, to the lanes of the device and to the loaded ones, as a function of what the disk has, the sleep and the response time each on its own. |
| ProfileSwitch.Service.Restore | internal/desktop/profiles.go:218-288 | The end of every selection restores the active profile, once per device. |
| ProfileSwitch.SelectingKeepsLanesIff | internal/desktop/inventory.go:141-177 | Selecting leaves the lanes alone, whatever the disk has, if and only if the device is loaded, has no lanes or is not eligible. |
| ProfileSwitch.SelectingLoads | internal/desktop/profiles.go:254-288 | Lane by lane, what selecting a device that is not loaded takes from its active profile: every value but the applied lighting; nobody else's lanes change. |
| ProfileSwitch.SelectingReads | internal/desktop/inventory.go:141-177 | Lane by lane, what it takes from the records when there is no such profile. |
| ProfileSwitch.ReselectionUndoesStep | internal/desktop/profiles.go:254-288 | A story of the kind that SwitchProfile is proved to leave, with the log of a successful switch and the binding selected at every check, in which the device is selected again after the first step: in the end that lane counts as having another value. |
| ProfileSwitch.ChronicleGrows | internal/desktop/profiles.go:383-673 | Whatever happens during a switch, of its own or by others, extends the story, the log and the world together. |
| Base64.DecodeEncode | internal/udevauth/envelope.go:135-150 | Strict decoding gives back what was encoded, for all bytes. |
| Base64.EncodingIs | internal/udevauth/envelope.go:135-150 | Three bytes are one number whose four digits in base 64 are written, high digit first; one or two bytes are padded to four characters. |
| Base64.AlphabetIs | internal/udevauth/envelope.go:135-150 | The 64 digits. |
| Base64.EncodeDecode | internal/udevauth/envelope.go:179-184 | Whatever the strict decoder accepts is the encoding of its result. |
| Base64.CanonicalIff | internal/udevauth/envelope.go:179-182 | Re-encoding the payload rejects exactly the texts with line breaks. |
| Envelope.CheckPolicy | internal/udevauth/envelope.go:91-111 | The counting loop accepts exactly the policies of rules, comments and blank lines with at least one rule. |
| Envelope.PolicyIs | internal/udevauth/envelope.go:91-111 | Which texts are policies: at most 64 KiB of ended lines without control characters, each blank, a comment or a rule, with one rule at least. |
| Envelope.RulesAre | internal/udevauth/envelope.go:35-35 | The two rules in text. |
| Envelope.CheckHistory | internal/udevauth/envelope.go:112-123 | The loop accepts exactly up to sixteen strictly ascending digests. |
| Envelope.HistoryIs | internal/udevauth/envelope.go:112-123 | Which texts are histories: one to sixteen digests of 64 lower-case hexadecimal digits, with commas between them, a smaller character at the first difference coming first. |
| Envelope.SignedBytes | internal/udevauth/envelope.go:125-141 | The text is the ended lines of the artifact's fields, and exists exactly for artifacts that may be signed. |
| Envelope.SignedTextIs | internal/udevauth/envelope.go:125-151 | The names and the order of the lines that are signed, and of the signature line. |
| Envelope.SignableIs | internal/udevauth/envelope.go:83-141 | What may be signed: the two domains, versions of at most 80 characters that are versions, digests, and for a policy its history and the digest of its payload; signatures have 64 bytes. |
| Envelope.Marshal | internal/udevauth/envelope.go:142-151 | The wire is that text with a signature line. |
| Envelope.WireIsInjective | internal/udevauth/envelope.go:142-151 | A wire determines the artifact and the signature. |
| Envelope.SignedIsInjective | internal/udevauth/envelope.go:125-141 | What is signed determines the artifact, across both domains. |
| Envelope.WireFits | internal/udevauth/envelope.go:19-26 | Whatever can be marshalled fits into 96 KiB. |
| Envelope.Parse | internal/udevauth/envelope.go:152-197 | Accepts exactly the wires that are the marshalled form of an artifact of this domain and version with a good signature, and returns that artifact. |
| Envelope.MarshalThenParse | internal/udevauth/envelope.go:142-197 | What is marshalled and signed well parses back to the same artifact. |
| Procwatch.FolderMatchIsPrefix | internal/procwatch/procwatch.go:120-133 | On cleaned absolute paths, matching a folder compares whole components. |
| Procwatch.MatchesIs | internal/procwatch/procwatch.go:120-133 | A rule with a folder matches exactly if a path is one of its directories or goes on after it with a slash; any other exactly if its executable is running. |
| Procwatch.Watcher.FindMatch | internal/procwatch/procwatch.go:160-167 | The first rule that matches, or none exactly when none does. |
| Procwatch.FirstRuleCounts | internal/procwatch/procwatch.go:160-167 | Of several rules that match, the first one. |
| Procwatch.Watcher.Tick | internal/procwatch/procwatch.go:171-206 | The new memory and profile as a function of the old ones, what runs, how the calls turn out and what somebody else chooses between them; a switch may report an error although it moved the profile. |
| Procwatch.TickEffect | internal/procwatch/procwatch.go:171-206 | Why a tick may change the profile when nobody else does: to the first matching rule's, or back to the previous one if the active one was the watcher's when it looked. |
| Procwatch.LateChoiceIsKeptIff | internal/procwatch/procwatch.go:176-193 | After the last game a choice made after the watcher has looked is kept if and only if there is nothing else to restore or restoring fails outright. |
| Procwatch.TickFollowsGames | internal/procwatch/procwatch.go:171-206 | When the calls work, a game is followed after the tick exactly when a rule matches, and that rule matches. |
| Procwatch.FailureIsRetried | internal/procwatch/procwatch.go:169-206 | After a switch that fails, the next tick on which it works comes to what the first one would have come to, and until then the profile stays. |
| Procwatch.UnreadableIsGivenUp | internal/procwatch/procwatch.go:176-193 | An active profile that cannot be read counts as somebody else's, and one that could not be read before a game is not restored. |
| Procwatch.WatcherIsInCharge | internal/procwatch/procwatch.go:171-206 | Over every run in which nobody else switches, the active ID can be read and a failed switch moves nothing: the rule's profile while following a game, and the one from before otherwise. |
| Procwatch.OutsideChoiceStays | internal/procwatch/procwatch.go:176-178 | A profile somebody else has chosen stays over every run of ticks until a rule matches, however the calls turn out. |
| Procwatch.PreviousIsRestored | internal/procwatch/procwatch.go:185-193 | When the last game has ended and the calls work, the profile from before comes back. |
| ApplyLanes.StepKeepsInv | frontend/src/hooks/useDesktopWorkspace.ts:216-232 | An edit or a completion keeps the invariant of a lane. |
| ApplyLanes.EveryRunIsConflated | frontend/src/hooks/useDesktopWorkspace.ts:216-232 | Over every interleaving: at most one request in flight, those run are a subsequence of those submitted, the running one is superseded exactly when a later edit is queued, and an idle lane has run the last. |
| ApplyLanes.DragSendsTwo | frontend/src/hooks/useDesktopWorkspace.ts:212-214 | Any number of edits while a request is in flight cost one more request, for the last of them. |
| ApplyLanes.Workspace.RunLatestAutomaticApply | frontend/src/hooks/useDesktopWorkspace.ts:217-232 | Runs the request at once or queues it in place of an earlier one, on its own key alone. |
| ApplyLanes.Workspace.Finish | frontend/src/hooks/useDesktopWorkspace.ts:226-231 | After a completion the queued request runs, or the lane is idle. |
| ApplyLanes.Workspace.Superseded | frontend/src/hooks/useDesktopWorkspace.ts:226-226 | True exactly when there was a later edit of the same key. |

## Left out

- Updater.AnyRun: it follows a run up to the first recovery that drops a backup in a risky state; what later calls do with what is left then is not part of this model.
- Updater.Updater.Apply: the checks behind a verified update, the opening of the directory without following links and the file modes are parameters or failures; the digest is an arbitrary function.
- Updater.Updater.FillFile: contents are written by one call, so a partly written temporary file appears only as one that does not become durable.
- Versions.SelectManifest: the fetching of manifests and the check of the selected one's signature are not part of this model.
- Resend.AwaitAck: follows any number of rounds that is given, so that it ends; a write takes no time; the reader goroutine and its channels appear as the reads that were asked for and answered.
- MacroUpload.SendAssignment: the single-click command (internal/hidlinux/macro_upload.go:41-93) and the time limit of the status phase are not part of this model.
- TurnArbiter.Turns.AcquireIO: waits for a number of rounds that is given, so that it ends.
- TurnArbiter.EveryRunIsSafe: the critical sections are atomic steps, as the mutex makes them; contexts appear as cancellations at any moment.
- MacroBlocks.BlockIsReadable: what the firmware plays is not modelled; the reading is the host's own.
- MacroAdmission.DeviceAdmission: repeat counts, modes and delays are whole numbers; the interface's rejection of other numbers and its texts are left out.
- MacroRecorder.CaptureInput: times are real numbers, without the rounding of floating point.
- ProfileFiles.ProfileStore.NewProfileSummary: random IDs are taken as fresh within the store; drawing one in use counts as a failure.
- ProfileFiles.ProfileStore.MakeDirectory: what calls find after the directory itself has vanished is not part of this model; NewDirectoryMayVanish shows that it may.
- ProfileFiles.ProfileStore.FillTemp: a random temporary name that is drawn again while it is unsynced counts as a failure.
- ProfileFiles.AnyRun: on a disk that is not ordered, after a failed call, it says which stores may be found, not that each of them can be.
- ProfileSwitch.Service.SelectDevice: moving records of older versions is among what the disk has.
- ProfileFiles.ProfileStore.Load: JSON, record versions and timestamps are abstracted to readable and unreadable, and a store is that of one device.
- ProfileSwitch.Service.SwitchProfile: the store is its pointer, which an error may leave either way, as ProfileFiles shows; a selected device is taken to have its lanes, as an enumeration that creates them is one step here; session-only bindings are left out. A pointer that could not be moved is one error, PersistenceFailed, although the store's refusals have codes of their own (internal/desktop/profiles.go:69-80).
- ProfileSwitch.Service.ApplyOperationBound: the report is written some time after the check of the selection, as in the source, and nothing is said about the selection at that later moment; validation and encoding of the values are among the failures, reports are opaque, and the codes that say why a device could not be used (internal/desktop/service.go:643-668) are one, ApplyFailed.
- DeviceService.TargetedService.Refresh: the revision is unbounded, without the wrap-around of 64 bits; diagnostics and session-only bindings are left out.
- Envelope.Parse: one character stands for one byte; the constructors' list of known digests and the thin wrappers VerifyPolicy and VerifyScript are left out.
- Procwatch.Watcher.Tick: scanning /proc is left out.
- ApplyLanes.EveryRunIsConflated: what the requests do, and the counter that shows that some are running, are left out.
- The staging and applying of single settings, the debounce coordinators, persistence retries and factory reset.
- sysfs discovery, descriptor checks, the report encoders of single settings, autostart, game libraries and the user interface.
