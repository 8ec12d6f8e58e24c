# NachOS: a verified model of its file system, kernel, machine and user programs

NachOS is a small operating system together with the simulated computer it runs on. This project models the parts
of it where correctness is not obvious from reading one routine, and proves what those parts are for:

* **The file system** (`Words`, `BitMap`, `SynchDisk`, `FileHeader`, `OpenFile`, `Directory`, `FileSystem`). A disk of
  1024 sectors holds a free map and a directory, themselves stored as files. Formatting, `Create`, `Remove` and
  writes are methods on the disk image. `Sound` says that directory names are distinct, that every header is proper,
  that the sectors of all files, metadata included, are pairwise disjoint, and that the free map on disk marks exactly
  those sectors. Every call keeps it and refines a map from names (their first nine characters) to byte sequences;
  a failing call leaves the disk as it was.
* **The kernel** (`Kernel`, `Interrupt`, `ThreadList`, `SynchConsole`, `ProcessTable`). Threads, scheduler and
  Mesa-style semaphores are one step machine, whose steps are the stretches of code that run with interrupts off, and
  the results are about every run of it. The interrupt queue and simulated time, and the linked list with its `first`
  and `last` pointers, are classes updated in place. The console and the join/exit handshake are step machines with
  any number of callers.
* **The machine** (`BitOps`, `Multiply`, `Memory`, `Cpu`, `Instructions`, `Machine`, `Loader`, `DiskTiming`). Every instruction has a
  meaning in terms of arithmetic (`Cpu.Step`), and the machine that updates its registers in place with shifts, masks
  and sign-bit tests is proved to do exactly that. On top of it: delayed loads are transparent to interrupts,
  multiplication is exact, address spaces are isolated, and the page-by-page loader puts the program where the program
  expects it.
* **User programs** (`QuickSort`, `MergeSort`, `PingPong`).

`Options` and `Sequences` hold what several of these share.

Where code and its comments disagree, the code is followed. `OR` uses its first operand twice
(`machine/mipssim.cc:376`), and the "logical" right shifts are arithmetic (`machine/mipssim.cc:445-455`); they are
modelled as written.

Some properties one would expect are false of the code. Each has a lemma at an input that shows it and its exact
condition:

* A slot of the process table that is not null need not hold a live process, because `Remove` leaves the pointer behind
  (`ProcessTable.DanglingSlot`); it does if and only if its bit is marked (`ProcessTable.ExistTestIsNeeded`).
* A Join that passes all tests need not return: joined again before it gets to `Remove`, a child that has been let go
  leaves its parent waiting on a deleted semaphore (`ProcessTable.JoinAgain`). A Join can return if and only if no Join
  on that child has returned before (`ProcessTable.JoinReturnsExactly`).
* The process let into Join need not have made the child, because process numbers are used again
  (`ProcessTable.StrangerJoins`); it has if and only if the maker has not gone (`ProcessTable.JoinerIsMaker`).
* A process that calls Exit need not ever go away (`ProcessTable.NeverGoes`). It is decided at the call: if nobody has
  joined it, it goes at once; if somebody has and its code is not 0, it waits in Exit for ever and keeps its slot; if
  somebody has and its code is 0, it has gone or can still go, whatever happens afterwards (`ProcessTable.GoesExactly`).
* An interrupt can still be due when `Idle` returns (`Interrupts.TimerLeftDue`): all that is due is delivered except, on
  an idle machine, a timer interrupt that would be the last one pending (`Interrupts.DeliveredExactly`,
  `Interrupts.NothingFires`).
* An interrupt between two instructions can be visible to the program (`Cpu.InterruptSeen`, `Cpu.OverwriteSeen`). Unless the instruction
  reads the target of the pending load, it is invisible if and only if the instruction does not set that target, or
  sets it to the value loaded (`Cpu.FlushInvisibleExactly`).

Words are integers below 2^32 and wrap explicitly. Console input, interrupt handlers, what the kernel does on a
trap, the executable file and the choice of the next step are parameters.

## Model

| member | source | states |
|---|---|---|
| `Words.SetBitTests` | nachos/nachos-3.4/code/userprog/bitmap.cc:46-51 | setting bit k of a word turns on that bit and no other |
| `Words.ClearBitTests` | nachos/nachos-3.4/code/userprog/bitmap.cc:60-65 | clearing bit k turns off that bit and no other |
| `Words.BitsAddUp` | nachos/nachos-3.4/code/userprog/bitmap.cc:46-65 | setting and clearing bit k adds and subtracts 2^k exactly when the bit changes |
| `Words.RoundUpIsLeast` | nachos/nachos-3.4/code/threads/utility.h:39-40 | divRoundUp is the least number of pieces that hold n |
| `Words.WordsRoundTrip` | nachos/nachos-3.4/code/userprog/bitmap.cc:159-176 | words written out as bytes and read back are the same words |
| `BitMaps.FullExactly` | nachos/nachos-3.4/code/userprog/bitmap.cc:94-103 | the number of marks equals the number of bits exactly when every bit is marked, so Find fails exactly on a full map |
| `BitMaps.BitMap.constructor` | nachos/nachos-3.4/code/userprog/bitmap.cc:20-27 | whatever the words held before, no bit is marked afterwards |
| `BitMaps.BitMap.Mark` | nachos/nachos-3.4/code/userprog/bitmap.cc:46-51 | the set of marked bits gains exactly the given one |
| `BitMaps.BitMap.Clear` | nachos/nachos-3.4/code/userprog/bitmap.cc:60-65 | the set of marked bits loses exactly the given one |
| `BitMaps.BitMap.Test` | nachos/nachos-3.4/code/userprog/bitmap.cc:74-83 | true exactly for members of the set of marked bits |
| `BitMaps.BitMap.Find` | nachos/nachos-3.4/code/userprog/bitmap.cc:94-103 | returns and marks the lowest clear bit; -1, with the map unchanged, exactly when none is clear |
| `BitMaps.BitMap.NumClear` | nachos/nachos-3.4/code/userprog/bitmap.cc:122-130 | counts the clear bits |
| `SynchDisks.SynchDisk.ReadSector` | nachos/nachos-3.4/code/filesys/synchdisk.cc:72-79 | the buffer receives the sector's bytes at the given place and nothing else changes |
| `SynchDisks.SynchDisk.WriteSector` | nachos/nachos-3.4/code/filesys/synchdisk.cc:90-97 | exactly that sector changes, to the given bytes |
| `FileHeaders.HeaderRoundTrip` | nachos/nachos-3.4/code/filesys/filehdr.cc:77-94 | a header written to a sector and fetched back is the same header |
| `FileHeaders.FileBytesFrame` | nachos/nachos-3.4/code/filesys/filehdr.cc:106-110 | a file's bytes depend on its own data sectors only |
| `FileHeaders.FileHeader.Allocate` | nachos/nachos-3.4/code/filesys/filehdr.cc:41-52 | succeeds exactly when ceil(size/512) sectors are free; then every Find succeeds, the header gets that many distinct sectors that were free, and the map marks just those in addition; on failure the map is untouched |
| `FileHeaders.FileHeader.Deallocate` | nachos/nachos-3.4/code/filesys/filehdr.cc:61-68 | the assertion that each sector is marked never fails, and the map loses exactly the file's data sectors |
| `FileHeaders.FileHeader.FetchFrom` | nachos/nachos-3.4/code/filesys/filehdr.cc:77-81 | the header becomes the decoding of the sector |
| `FileHeaders.FileHeader.WriteBack` | nachos/nachos-3.4/code/filesys/filehdr.cc:90-94 | the sector, and no other, becomes the encoding of the header |
| `OpenFiles.EdgesAgree` | nachos/nachos-3.4/code/filesys/openfile.cc:183-193 | reading back the unaligned first and last sectors, in any combination, keeps every byte of the file around those replaced |
| `OpenFiles.BlockWritten` | nachos/nachos-3.4/code/filesys/openfile.cc:198-201 | overwriting the i-th sector of a file replaces that block of it and nothing else |
| `OpenFiles.OpenFile.ReadAt` | nachos/nachos-3.4/code/filesys/openfile.cc:131-161 | returns how many bytes lie inside the file and the request, and puts exactly that slice of the file's bytes into the buffer |
| `OpenFiles.OpenFile.WriteAt` | nachos/nachos-3.4/code/filesys/openfile.cc:163-203 | replaces bytes position .. position+n of the file's byte sequence, n clipped at the file length, and touches no sector that is not the file's own data |
| `OpenFiles.OpenFile.Read` | nachos/nachos-3.4/code/filesys/openfile.cc:89-95 | the slice at the seek position, which moves on by the number of bytes read |
| `OpenFiles.OpenFile.Write` | nachos/nachos-3.4/code/filesys/openfile.cc:97-103 | the write at the seek position, which moves on by the number of bytes written |
| `OpenFiles.ChunkedWrite` | nachos/nachos-3.4/code/filesys/openfile.cc:89-203 | writing a string in any chunks has the effect of writing it at once, even where it runs past the end of the file |
| `OpenFiles.ChunkedRead` | nachos/nachos-3.4/code/filesys/openfile.cc:89-161 | reading in any chunks gives what one read gives |
| `OpenFiles.ChunkedRoundTrip` | nachos/nachos-3.4/code/filesys/openfile.cc:89-203 | a string written in any chunking is read back in any chunking |
| `Directories.StrnEqualIsSameKey` | nachos/nachos-3.4/code/filesys/directory.cc:90-97 | names match exactly when their first nine characters do |
| `Directories.StoredKey` | nachos/nachos-3.4/code/filesys/directory.cc:129-143 | a stored name is found under the name it was stored for |
| `Directories.TableRoundTrip` | nachos/nachos-3.4/code/filesys/directory.cc:63-80 | a directory written out and read back has the same entries |
| `Directories.Directory.FetchFrom` | nachos/nachos-3.4/code/filesys/directory.cc:63-67 | the table becomes the decoding of the directory file |
| `Directories.Directory.WriteBack` | nachos/nachos-3.4/code/filesys/directory.cc:76-80 | the directory file then decodes to the table, and only its data sectors change |
| `Directories.Directory.FindIndex` | nachos/nachos-3.4/code/filesys/directory.cc:90-97 | the first entry in use under that name, or -1 exactly when there is none |
| `Directories.Directory.Find` | nachos/nachos-3.4/code/filesys/directory.cc:108-116 | the header sector of that entry, or -1 exactly when the name is not listed |
| `Directories.Directory.Add` | nachos/nachos-3.4/code/filesys/directory.cc:129-143 | succeeds exactly when the name is new and a slot is free, and then enters the name in the first free slot and changes nothing else |
| `Directories.Directory.Remove` | nachos/nachos-3.4/code/filesys/directory.cc:153-162 | succeeds exactly when the name is listed, and then frees its first slot only |
| `FileSystems.FormatDisk` | nachos/nachos-3.4/code/filesys/filesys.cc:83-137 | from arbitrary disk contents, formatting gives a sound disk with an empty directory and four sectors in use |
| `FileSystems.FileSystem.constructor` | nachos/nachos-3.4/code/filesys/filesys.cc:79-152 | the file system is sound; after formatting it holds exactly stdin and stdout, in eight sectors |
| `FileSystems.FileSystem.Create` | nachos/nachos-3.4/code/filesys/filesys.cc:192-233 | succeeds exactly when the name is new, a directory slot is free and there is room for header and data; then exactly 1 + ceil(size/512) more sectors are marked, all previously free; on every failure path the disk is unchanged |
| `FileSystems.FileSystem.Open` | nachos/nachos-3.4/code/filesys/filesys.cc:245-259 | null exactly when the name is not listed, otherwise a handle on that file's header |
| `FileSystems.FileSystem.Remove` | nachos/nachos-3.4/code/filesys/filesys.cc:311-342 | succeeds exactly when the name is listed; exactly its entry and its sectors become free; otherwise the disk is unchanged |
| `FileSystems.FileSystem.WriteThrough` | nachos/nachos-3.4/code/filesys/openfile.cc:163-203 | a write through a handle keeps the disk sound, keeps the directory and the free map, and changes that file only |
| `FileSystems.HandleSurvives` | nachos/nachos-3.4/code/filesys/filesys.cc:192-342 | a handle stays good, on the same entry and header, through every Create, Remove and write except the removal of its own name |
| `FileSystems.HandleSurvivesRun` | nachos/nachos-3.4/code/filesys/filesys.cc:192-342 | so a handle opened at any point of a run stays good until its file is removed |
| `FileSystems.UsedIsCost` | nachos/nachos-3.4/code/filesys/filehdr.cc:41-52 | on a sound disk the free map marks four sectors for the metadata and 1 + ceil(size/512) for each file |
| `FileSystems.CanCreateExactly` | nachos/nachos-3.4/code/filesys/filesys.cc:206-220 | Create can succeed if and only if the name is new, there are fewer than ten files, and the sizes of the files leave room: a condition on the visible files alone |
| `FileSystems.CreateAddsOne` | nachos/nachos-3.4/code/filesys/filesys.cc:192-233 | a successful Create keeps the ownership invariant and adds exactly one visible file; all other files keep their bytes |
| `FileSystems.RemoveTakesOne` | nachos/nachos-3.4/code/filesys/filesys.cc:311-342 | a successful Remove keeps the ownership invariant and takes away exactly that file |
| `FileSystems.WriteChangesOne` | nachos/nachos-3.4/code/filesys/openfile.cc:163-203 | a write keeps the ownership invariant and changes one visible file in the written stretch only |
| `FileSystems.StepRefines` | nachos/nachos-3.4/code/filesys/filesys.cc:192-342 | every Create, Remove or write keeps the disk sound and refines the corresponding change of a map from names to bytes, in which success of Create is decided by that map |
| `FileSystems.RunRefines` | nachos/nachos-3.4/code/filesys/filesys.cc:80-342 | over every sequence of calls from a sound disk, names stay distinct, extents disjoint, the free map exact, and each call refines its abstract step |
| `FileSystems.CreateThenRemove` | nachos/nachos-3.4/code/filesys/filesys.cc:192-342 | removing a file just created restores the free map and the visible files |
| `Kernel.StepKeepsPlaces` | nachos/nachos-3.4/code/threads/thread.cc:104-243 | every kernel step, the idle window and the switch of a thread to itself included, keeps each thread in the place its status says |
| `Kernel.StepKeepsSems` | nachos/nachos-3.4/code/threads/synch.cc:66-100 | every kernel step keeps value >= 0, value = initial + V's - P's, and value <= woken threads when somebody is queued |
| `Kernel.CleanUpKeepsPlaces` | nachos/nachos-3.4/code/threads/scheduler.cc:90-135 | deleting the finished thread leaves nothing that refers to it |
| `Kernel.EveryThreadPlaced` | nachos/nachos-3.4/code/threads/thread.cc:104-243 | in every reachable state each live thread that has started and not finished is on the processor, on the ready list once, or on one semaphore's queue once; a deleted thread is nowhere |
| `Kernel.NoLostWakeup` | nachos/nachos-3.4/code/threads/synch.cc:66-100 | in every reachable state the semaphore laws hold, and an idle machine has no thread waiting on a positive semaphore |
| `Kernel.ReadyStep` | nachos/nachos-3.4/code/threads/scheduler.cc:53-74 | the ready list is a queue: a thread forked, woken or yielding goes to its end, Yield and Sleep give the processor to the one at its front, and nobody else gets it |
| `Kernel.ReadyIsFifo` | nachos/nachos-3.4/code/threads/scheduler.cc:53-74 | over every run threads get the processor in the order they were made ready, each as often as it was |
| `Kernel.SemStep` | nachos/nachos-3.4/code/threads/synch.cc:66-100 | a V adds one to the value and takes the first thread off the queue; a P returns, and takes one from the value, exactly when the value tested is positive, and otherwise its caller goes to the end of the queue and to sleep |
| `Kernel.SemaphoreCounts` | nachos/nachos-3.4/code/threads/synch.cc:66-100 | over every run, counted from its steps: value = initial value + V's - P's that returned, never negative, and threads are taken off the queue in the order they queued up |
| `Kernel.PhaseStep` | nachos/nachos-3.4/code/threads/thread.cc:228-243 | the machine starts to idle only in Sleep and only when no thread is ready; with one ready, the next step puts it on the processor; a thread inside P goes on with its test |
| `Kernel.InsideStep` | nachos/nachos-3.4/code/threads/synch.cc:66-79 | a thread is inside P from a test that fails to one that succeeds |
| `Kernel.DeletionStep` | nachos/nachos-3.4/code/threads/scheduler.cc:116-127 | a finished thread is deleted by the next switch to a thread that has run before, and in no other way |
| `Kernel.FreshStep` | nachos/nachos-3.4/code/threads/scheduler.cc:105-116 | a thread is fresh from its creation until it first gets the processor |
| `Kernel.EnabledExactly` | nachos/nachos-3.4/code/threads/thread.cc:104-243 | in every reachable state, exactly what can happen next |
| `ThreadList.InsertKeepsSorted` | nachos/nachos-3.4/code/threads/list.cc:178-202 | inserting by key keeps the list sorted, keeps all entries and places the new one after all equal keys |
| `ThreadList.List.Append` | nachos/nachos-3.4/code/threads/list.cc:76-88 | the linked list stays well linked and its contents gain the item at the end |
| `ThreadList.List.Prepend` | nachos/nachos-3.4/code/threads/list.cc:102-114 | the same, at the front |
| `ThreadList.List.SortedRemove` | nachos/nachos-3.4/code/threads/list.cc:217-254 | takes off and returns the first item with its key; null exactly on an empty list |
| `ThreadList.List.SortedInsert` | nachos/nachos-3.4/code/threads/list.cc:178-202 | the pointer surgery refines insertion by key on the contents, from any well-linked list |
| `ThreadList.List.IsEmpty` | nachos/nachos-3.4/code/threads/list.cc:154-161 | true exactly when there are no contents |
| `Interrupts.InsertLater` | nachos/nachos-3.4/code/machine/interrupt.cc:264-275 | scheduling something strictly later leaves the same interrupts due |
| `Interrupts.DueIsAll` | nachos/nachos-3.4/code/machine/interrupt.cc:306-312 | the due front of a sorted list is every interrupt whose time has come |
| `Interrupts.PutBack` | nachos/nachos-3.4/code/machine/interrupt.cc:309-312 | taking the first pending interrupt off and putting it back keeps the list sorted, with the same interrupts and the same first time |
| `Interrupts.NothingLost` | nachos/nachos-3.4/code/machine/interrupt.cc:264-336 | while the books are kept, the interrupts ever scheduled are, as a multiset, those pending and those delivered |
| `Interrupts.DeliveredAsAsked` | nachos/nachos-3.4/code/machine/interrupt.cc:264-275 | an interrupt delivered for a request has its handler and argument and came no earlier than fromNow ticks after the call |
| `Interrupts.ScheduleKeeps` | nachos/nachos-3.4/code/machine/interrupt.cc:264-275 | scheduling keeps the books: the list sorted, deliveries in order and none early, and everything ever scheduled either delivered or pending, once |
| `Interrupts.FireKeeps` | nachos/nachos-3.4/code/machine/interrupt.cc:300-335 | a firing keeps the books, delivers the first due interrupt, leaves exactly the others due, and adds exactly what its handler schedules |
| `Interrupts.PutBackKeeps` | nachos/nachos-3.4/code/machine/interrupt.cc:309-319 | what does not fire is put back without loss |
| `Interrupts.DeliveredExactly` | nachos/nachos-3.4/code/machine/interrupt.cc:150-179 | delivering all that fires delivers exactly the due interrupts, in order and stamped with the present time, except a timer interrupt that would be the last pending one of an idle machine; what was not due or has been scheduled since is pending |
| `Interrupts.Interrupt.Schedule` | nachos/nachos-3.4/code/machine/interrupt.cc:264-275 | the interrupt is entered in order of its time, behind those of the same time |
| `Interrupts.Interrupt.RunHandler` | nachos/nachos-3.4/code/machine/interrupt.cc:327-333 | exactly the handler's own interrupts are entered, and the mode of the machine is restored |
| `Interrupts.Interrupt.CheckIfDue` | nachos/nachos-3.4/code/machine/interrupt.cc:290-336 | fires exactly when the first interrupt is due or the clock may jump to it, except an idle machine's last timer interrupt; then the list is the old one without its first interrupt and with what the handler scheduled, otherwise the first is put back; the tick counts still add up |
| `Interrupts.NothingFires` | nachos/nachos-3.4/code/machine/interrupt.cc:290-336 | nothing more will fire exactly when nothing is due or the machine is idle with one timer interrupt left |
| `Interrupts.TimerLeftDue` | nachos/nachos-3.4/code/machine/interrupt.cc:210-234 | a run in which Idle returns with a timer interrupt still due |
| `Interrupts.Interrupt.DeliverDue` | nachos/nachos-3.4/code/machine/interrupt.cc:150-179 | the loop ends, and has fired as long as anything fires, one handler per delivery |
| `Interrupts.Interrupt.OneTick` | nachos/nachos-3.4/code/machine/interrupt.cc:150-179 | time advances by the tick of the mode; exactly what has become due is delivered, up to an idle machine's last timer interrupt, and the rest is kept; a switch is reported exactly if some handler asked for one |
| `Interrupts.Interrupt.SetLevel` | nachos/nachos-3.4/code/machine/interrupt.cc:114-127 | time passes, by one tick of the mode and with its deliveries, exactly on the step from off to on; otherwise nothing changes but the level |
| `Interrupts.Interrupt.Idle` | nachos/nachos-3.4/code/machine/interrupt.cc:210-234 | the clock jumps to the next interrupt, exactly what is due then is delivered, up to the last timer interrupt, and the rest is kept; halts exactly when nothing but at most one timer interrupt is pending |
| `ConsoleOutput.StepKeepsInv` | nachos/nachos-3.4/code/threads/synchcons.cc:71-87 | every step of any caller or of the device keeps the console invariant |
| `ConsoleOutput.WholeBuffers` | nachos/nachos-3.4/code/threads/synchcons.cc:71-87 | under every interleaving the output is whole buffers followed by part of at most one, and PutChar never finds the device busy |
| `ConsoleOutput.WritesWhatItWasGiven` | nachos/nachos-3.4/code/threads/synchcons.cc:71-87 | over every run, counted from its steps: the output is, whole and in the order of their returns, the buffers passed to the Writes that have returned, then a beginning of the buffer of one that has not; and each thread's calls are those that have returned to it, in order, and at most one in progress |
| `ConsoleOutput.NeverStuck` | nachos/nachos-3.4/code/threads/synchcons.cc:71-87 | while some Write has not returned, something can happen |
| `ConsoleInput.StepKeepsStream` | nachos/nachos-3.4/code/threads/synchcons.cc:95-136 | no step loses, repeats or reorders a character |
| `ConsoleInput.CharactersInOrder` | nachos/nachos-3.4/code/threads/synchcons.cc:95-136 | under every interleaving, each polled character other than EOF is consumed exactly once and in order, each Read gets one line or one bufferful and returns -1 for control-A and otherwise how many characters it stored, and a waiting character always has a wakeup |
| `ConsoleInput.ReadsWhatWasTyped` | nachos/nachos-3.4/code/threads/synchcons.cc:95-136 | over every run, counted from its steps: the characters the polls read are those of the Reads that have returned, in order, of the one in progress and of the device, and each Read obeyed the limit it was called with |
| `ConsoleInput.NeverStuck` | nachos/nachos-3.4/code/threads/synchcons.cc:95-136 | while some Read has not returned, something can happen |
| `ConsoleInput.LineIsDetermined` | nachos/nachos-3.4/code/threads/synchcons.cc:111-135 | where a Read cuts the stream is determined by the stream and the limit |
| `ProcessTable.ReadIsSafe` | nachos/nachos-3.4/code/userprog/table.cc:142-152 | when a parent reads pcb[pid] again, the slot still holds its child's block, not deleted, with the code the child set |
| `ProcessTable.StepKeepsInv` | nachos/nachos-3.4/code/userprog/table.cc:44-166 | Exec, Join and Exit, in the pieces between their waits, keep table, bitmap, blocks and handshake consistent |
| `ProcessTable.StepKeepsPast` | nachos/nachos-3.4/code/userprog/table.cc:44-166 | every step keeps one token per exited process: signalled, being read, or joined; and each waiting parent's child in place unless it has been let go |
| `ProcessTable.JoinsAreTruthful` | nachos/nachos-3.4/code/userprog/table.cc:86-166 | over every run, each Join that returned saw the code the process it joined gave to Exit and returned 0 exactly for the code 0 |
| `ProcessTable.JoinsAreLogged` | nachos/nachos-3.4/code/userprog/table.cc:118-155 | over every run, counted from its steps: the i-th Join to return is that of the i-th reader, saw the code of its child's Exit, and returned 0 exactly for 0 |
| `ProcessTable.ProcessesAreLogged` | nachos/nachos-3.4/code/userprog/table.cc:44-84 | the i-th Exec made the i-th process, with that maker and that number |
| `ProcessTable.JoinEnters` | nachos/nachos-3.4/code/userprog/table.cc:118-142 | Join lets a process in exactly if all tests are passed, for the process in that slot, and otherwise changes nothing |
| `ProcessTable.JoinedOnce` | nachos/nachos-3.4/code/userprog/table.cc:118-155 | over every run no process is joined twice, and a waiting Join has its child's block in place unless an earlier Join let the child go |
| `ProcessTable.JoinReturnsExactly` | nachos/nachos-3.4/code/userprog/table.cc:118-155 | a Join that was let in can return if and only if no Join on that child had returned before; if none had, its wait ends with the child's exit and not before |
| `ProcessTable.SecondJoinHangs` | nachos/nachos-3.4/code/userprog/table.cc:118-155 | if one had, it waits for ever, whatever happens afterwards |
| `ProcessTable.JoinAgain` | nachos/nachos-3.4/code/userprog/table.cc:105-152 | a run in which a parent passes all tests and waits on a deleted semaphore |
| `ProcessTable.JoinerIsMaker` | nachos/nachos-3.4/code/userprog/table.cc:133-138 | a process let into Join made the child if and only if the maker has not gone |
| `ProcessTable.StrangerJoins` | nachos/nachos-3.4/code/userprog/table.cc:133-138 | a run in which a process with a recycled number joins a child it did not make |
| `ProcessTable.GoesExactly` | nachos/nachos-3.4/code/userprog/table.cc:105-115 | in every reachable state, at the call of Exit: the process goes at once exactly when nobody has joined it; joined and with a code other than 0, it is in Exit with its slot marked after every continuation; and after every continuation it has gone or can still go if and only if nobody had joined it or the code is 0 |
| `ProcessTable.SignalledExactly` | nachos/nachos-3.4/code/userprog/table.cc:144-152 | while it waits in Exit, a process is signalled exactly when a Join on it has returned 0 |
| `ProcessTable.NeverGoes` | nachos/nachos-3.4/code/userprog/table.cc:144-150 | a run after which a joined process with the code 7 is still there, not signalled, though its parent has returned from Join |
| `ProcessTable.ExistTestIsNeeded` | nachos/nachos-3.4/code/userprog/exception.cc:764-783 | a slot that was ever used points at a live block if and only if its bit is marked, which is what the system call tests before it starts a Join |
| `ProcessTable.DanglingSlot` | nachos/nachos-3.4/code/userprog/table.cc:157-166 | a run after which a slot points at a deleted block |
| `BitOps.AndLowWord` | nachos/nachos-3.4/code/machine/mipssim.cc:399-402 | masking with k ones is the remainder modulo 2^k |
| `BitOps.AndHighWord` | nachos/nachos-3.4/code/machine/mipssim.cc:326-329 | masking with zeros in the k low places takes the remainder away |
| `BitOps.OrHighWord` | nachos/nachos-3.4/code/machine/mipssim.cc:237-240 | or-ing ones above the k low places is sign extension |
| `BitOps.OrApartWord` | nachos/nachos-3.4/code/machine/mipssim.cc:516-519 | or-ing words with no bit in common adds them |
| `BitOps.AndBits` | nachos/nachos-3.4/code/machine/mipssim.cc:153-155 | bit by bit, conjunction |
| `BitOps.OrBits` | nachos/nachos-3.4/code/machine/mipssim.cc:379-381 | bit by bit, disjunction |
| `BitOps.XorBits` | nachos/nachos-3.4/code/machine/mipssim.cc:538-540 | bit by bit, difference |
| `BitOps.XorUndoes` | nachos/nachos-3.4/code/machine/mipssim.cc:538-540 | exclusive or with the same word twice is the identity |
| `Multiply.BitStep` | nachos/nachos-3.4/code/machine/mipssim.cc:663-678 | using one bit of the multiplier keeps accumulated plus owed equal to the product |
| `Multiply.Mult` | nachos/nachos-3.4/code/machine/mipssim.cc:635-692 | the exact 64-bit product of all 32-bit operands, signed or unsigned, -2^31 and the early exit included |
| `Memory.Physical` | nachos/nachos-3.4/code/machine/translate.cc:186-255 | a translated reference lies wholly in the frame its page maps to |
| `Memory.ReadWritten` | nachos/nachos-3.4/code/machine/translate.cc:87-169 | what WriteMem stored is what ReadMem reads back, cut to the size of the reference |
| `Memory.TouchIsHarmless` | nachos/nachos-3.4/code/machine/translate.cc:248-251 | setting use and dirty bits changes no translation |
| `Memory.FaultExactly` | nachos/nachos-3.4/code/machine/translate.cc:186-247 | which exception a reference raises, in order of precedence, and none if and only if the address is aligned and in the space, the page valid, not protected against this use, and its frame exists |
| `Memory.ReferenceMarks` | nachos/nachos-3.4/code/machine/translate.cc:248-251 | a reference that succeeds marks its page used, a write also dirty, and changes nothing else in the table; one that fails changes nothing |
| `Memory.WriteExactly` | nachos/nachos-3.4/code/machine/translate.cc:137-169 | a write changes exactly the bytes it refers to, to those of the value from the lowest up |
| `Memory.SpacesAreIsolated` | nachos/nachos-3.4/code/machine/translate.cc:137-169 | a WriteMem in one space never changes a ReadMem in a space with no frame in common |
| `Cpu.DecodeIsTotal` | nachos/nachos-3.4/code/machine/mipssim.cc:589-626 | every word decodes to an operation the switch has a case for and to register numbers 0..31 |
| `Instructions.DecodeRegister` | nachos/nachos-3.4/code/machine/mipssim.cc:589-626 | the encoding of every register instruction decodes to its operation and fields |
| `Instructions.DecodeImmediate` | nachos/nachos-3.4/code/machine/mipssim.cc:589-608 | the same for instructions with a constant, which is sign-extended |
| `Instructions.DecodeCondition` | nachos/nachos-3.4/code/machine/mipssim.cc:611-625 | the same for the conditions encoded in rt |
| `Instructions.DecodeJump` | nachos/nachos-3.4/code/machine/mipssim.cc:606-608 | the same for jumps |
| `Instructions.DecodeOnly` | nachos/nachos-3.4/code/machine/mipssim.cc:589-626 | no other word decodes to an operation the processor has |
| `Instructions.ReadsExactly` | nachos/nachos-3.4/code/machine/mipssim.cc:123-553 | which operations look at rs and at rt |
| `Instructions.ShlBits` | nachos/nachos-3.4/code/machine/mipssim.cc:395-402 | a left shift moves bits up and brings in zeros |
| `Instructions.SraBits` | nachos/nachos-3.4/code/machine/mipssim.cc:436-455 | a right shift moves bits down and copies the sign bit in, for all four right shifts as written |
| `Instructions.NotBits` | nachos/nachos-3.4/code/machine/mipssim.cc:371-373 | the complement, bit by bit |
| `Instructions.DivLaw` | nachos/nachos-3.4/code/machine/mipssim.cc:195-203 | after DIV, LO * rt + HI = rs on signed values, HI is smaller than rt and has the sign of rs or is 0, for all operands but a zero divisor and -2^31 by -1 |
| `Instructions.DividesOnce` | nachos/nachos-3.4/code/machine/mipssim.cc:195-203 | that law leaves just one quotient and remainder |
| `Instructions.DivuLaw` | nachos/nachos-3.4/code/machine/mipssim.cc:205-217 | after DIVU, LO * rt + HI = rs and HI < rt on unsigned values |
| `Cpu.StopsExactly` | nachos/nachos-3.4/code/machine/mipssim.cc:551-553 | the final ASSERT(FALSE) is never reached: only an unaligned LWL, LWR, SWL or SWR stops the machine |
| `Cpu.StepKeepsGood` | nachos/nachos-3.4/code/machine/mipssim.cc:575-582 | after every instruction, trapped or completed, r0 is 0 and the pending target is one of r0..r31 |
| `Cpu.ExecutedKeepsGood` | nachos/nachos-3.4/code/machine/mipssim.cc:93-565 | the same after any number of instructions, through system calls and other traps |
| `Cpu.WritesTheTarget` | nachos/nachos-3.4/code/machine/mipssim.cc:123-553 | the general register an instruction sets at once is the one its format names |
| `Cpu.FlushKeepsOperands` | nachos/nachos-3.4/code/machine/mipssim.cc:290-293 | doing a pending load early changes no operand of an instruction that does not read its target, nor what LWL and LWR to that target merge with |
| `Cpu.StepAfterFlush` | nachos/nachos-3.4/code/machine/mipssim.cc:93-582 | an interrupt before an instruction that neither reads nor directly sets the pending target changes nothing, up to the value slot of a load to r0 |
| `Cpu.FlushInvisibleExactly` | nachos/nachos-3.4/code/machine/mipssim.cc:555-582 | for every instruction that does not read the pending target, traps included: an interrupt before it changes nothing if and only if it does not set that target, or sets it to the value loaded |
| `Cpu.InterruptSeen` | nachos/nachos-3.4/code/machine/mipssim.cc:149-151 | a machine on which an interrupt before an ADDU that reads the pending target changes the result |
| `Cpu.OverwriteSeen` | nachos/nachos-3.4/code/machine/mipssim.cc:145-147 | a machine on which an interrupt before an ADDIU that sets the pending target to another value changes the result |
| `Cpu.InterruptsAreTransparent` | nachos/nachos-3.4/code/machine/interrupt.cc:323-328 | over whole runs, across traps and whatever the kernel does on them: code that respects the load delay computes the same wherever interrupts come in |
| `Machines.Machine.constructor` | nachos/nachos-3.4/code/machine/machine.cc:55-76 | registers and memory start at zero, which is a good state |
| `Machines.Machine.DelayedLoad` | nachos/nachos-3.4/code/machine/mipssim.cc:575-582 | does the pending load and makes the next one pending |
| `Machines.Machine.RaiseException` | nachos/nachos-3.4/code/machine/machine.cc:100-107 | the kernel is entered with the bad address recorded and no load pending |
| `Machines.SignsTellOverflow` | nachos/nachos-3.4/code/machine/mipssim.cc:125-143 | the sign-bit test of ADD and ADDI finds exactly the sums that do not fit 32 bits |
| `Machines.SignsTellUnderflow` | nachos/nachos-3.4/code/machine/mipssim.cc:457-465 | the sign-bit test of SUB finds exactly the differences that do not fit |
| `Machines.Machine.Multiplication` | nachos/nachos-3.4/code/machine/mipssim.cc:361-369 | HI and LO get the exact product |
| `Machines.Machine.Division` | nachos/nachos-3.4/code/machine/mipssim.cc:195-217 | HI and LO get remainder and quotient, both 0 for a zero divisor |
| `Machines.Machine.Branch` | nachos/nachos-3.4/code/machine/mipssim.cc:161-193 | the fall-through cases set the link register before the test and then branch as the plain ones |
| `Machines.Machine.LoadDelayed` | nachos/nachos-3.4/code/machine/mipssim.cc:231-278 | bytes and half words are extended or cut, misaligned addresses raise the address error, and the value goes to the pending load |
| `Machines.Machine.LoadPart` | nachos/nachos-3.4/code/machine/mipssim.cc:280-343 | merges with the pending value if the target has one |
| `Machines.Machine.StorePart` | nachos/nachos-3.4/code/machine/mipssim.cc:477-532 | reads, merges and writes back the word |
| `Machines.Machine.OneInstruction` | nachos/nachos-3.4/code/machine/mipssim.cc:93-565 | updating registers and memory in place does exactly one step of the processor, traps and failed assertions included |
| `Loader.StretchLoaded` | nachos/nachos-3.4/code/userprog/addrspace.cc:205-234 | filling a stretch inside one page advances the loaded part of the image and touches no frame of another space |
| `Loader.AllocatePages` | nachos/nachos-3.4/code/userprog/addrspace.cc:166-189 | each page gets a distinct frame that was free, cleared; nothing else changes |
| `Loader.ComputeLayout` | nachos/nachos-3.4/code/userprog/addrspace.cc:191-204 | the six sizes split code and data over whole pages without gap or overlap, for all sizes |
| `Loader.LoadSegments` | nachos/nachos-3.4/code/userprog/addrspace.cc:191-234 | for all sizes, exact page multiples and empty segments included, code and data end up in place over zeros |
| `Loader.ShownIsRead` | nachos/nachos-3.4/code/machine/translate.cc:87-122 | where every byte of a space is the image's, so is every aligned reference of one, two or four bytes, an instruction fetch included |
| `Loader.BuildSpace` | nachos/nachos-3.4/code/userprog/addrspace.cc:130-237 | fails, changing nothing, exactly when code, data, uninitialised data and a stack of 1024 bytes do not fit the free frames; otherwise the space holds all of them in the least number of pages, every byte of it can be read and written, every aligned reference reads code, then data, then zeros, and no other frame changes |
| `Loader.NewSpaceApart` | nachos/nachos-3.4/code/userprog/addrspace.cc:156-189 | a new space shares no frame with the live ones, and building it changed no read in any of them |
| `DiskTiming.ModuloDiffIsLeast` | nachos/nachos-3.4/code/machine/disk.cc:202-209 | the least number of sector times until the wanted sector passes |
| `DiskTiming.Disk.TimeToSeek` | nachos/nachos-3.4/code/machine/disk.cc:179-194 | 500 ticks for each track crossed, and seek plus wait ends on the next sector boundary |
| `DiskTiming.Disk.ComputeLatency` | nachos/nachos-3.4/code/machine/disk.cc:232-253 | between 1 and 64 rotation times, and exactly one from the buffer |
| `DiskTiming.Disk.LatencyCoversPass` | nachos/nachos-3.4/code/machine/disk.cc:232-253 | every request ends no earlier than a full pass of its sector since the head reached the track, with or without the buffer |
| `DiskTiming.Disk.RotationIsLeast` | nachos/nachos-3.4/code/machine/disk.cc:232-253 | without the buffer it ends with the first full pass after the seek |
| `DiskTiming.Disk.BufferedExactly` | nachos/nachos-3.4/code/machine/disk.cc:232-248 | the buffer is used exactly when reading, on the same track, a sector a full pass of which is over by the next sector boundary |
| `DiskTiming.Disk.UpdateLast` | nachos/nachos-3.4/code/machine/disk.cc:261-271 | the buffer restarts exactly when the head moves |
| `DiskTiming.Disk.Request` | nachos/nachos-3.4/code/machine/disk.cc:115-153 | keeps the start of the buffer on a sector boundary and out of the future of an idle disk |
| `QuickSort.MoveHole` | nachos/nachos-3.4/code/test/quicksort.c:20-29 | moving an element into the hole keeps the array a rearrangement |
| `QuickSort.Partition` | nachos/nachos-3.4/code/test/quicksort.c:17-30 | the pivot ends up between smaller-or-equal and larger-or-equal elements, the rest of the array untouched |
| `QuickSort.DeepIsFar` | nachos/nachos-3.4/code/test/quicksort.c:18-33 | the segment at stack level i begins at i or later, so the stack overflows only beyond MAX elements |
| `QuickSort.Sort` | nachos/nachos-3.4/code/test/quicksort.c:5-44 | sorts and permutes; returns -1 only for more than MAX elements, does so on every sorted array of more than MAX, and even then leaves a permutation; at most 2n-1 rounds |
| `MergeSort.RotationIsStable` | nachos/nachos-3.4/code/test/mergesort.c:20-29 | moving an element down past strictly larger ones keeps the order of equivalent elements |
| `MergeSort.Merge` | nachos/nachos-3.4/code/test/mergesort.c:4-32 | two sorted runs become one, stably, in place, early return and shifting mid included |
| `MergeSort.Sort` | nachos/nachos-3.4/code/test/mergesort.c:34-43 | for every total preorder: sorted, stable, nothing outside the range touched |
| `MergeSort.StableIsPermutation` | nachos/nachos-3.4/code/test/mergesort.c:34-43 | a stable rearrangement is a permutation |
| `MergeSort.OnlyOneResult` | nachos/nachos-3.4/code/test/mergesort.c:34-43 | sorted and stable together determine the result |
| `PingPong.RunKeepsInv` | nachos/nachos-3.4/code/test/Ping.c:3-10 | there is one token: on First, in Ping, on Second or in Pong |
| `PingPong.TakesTurns` | nachos/nachos-3.4/code/test/Pong.c:3-10 | under every interleaving and for every number of rounds n the output is a prefix of ABAB..., exactly one process can move until both are done, and every run ends after 6n steps with the output complete |

## Left out

- Kernel, ConsoleOutput, ConsoleInput, ProcessTable and PingPong are step machines on values, because their claims are about interleavings: the code between two context switches is one step. Update in place and aliasing of the thread, semaphore and PCB objects are not captured.
- Cpu.Executed, the loop of `Machine::Run`, is iterated on values; `Machines.Machine.OneInstruction` is the in-place step. What the kernel does on a trap (`exception.cc`) is a parameter that keeps r0 zero and the pending target in range.
- Kernel.EveryThreadPlaced: does not say that every finished thread is freed, because a thread that starts for the first time skips the cleaning up.
- Interrupts.Interrupt.OneTick: reports that a context switch was asked for; the `Yield` itself, which can re-enter `OneTick`, belongs to the kernel machine. What handlers do is a parameter: the interrupts they schedule and whether they ask to yield.
- Interrupts.PutBack: claims no first-in-first-out order among interrupts of equal time, because putting one back moves it behind the others.
- Interrupts.Interrupt.Schedule: the pending list is a sequence updated by `InsertByKey`; that the linked list does just that is `ThreadList.List.SortedInsert`.
- OpenFiles.OpenFile.WriteAt: position + numBytes must not exceed the largest int, where the source would overflow; the buffers are given in full.
- FileHeaders.FileHeader.Allocate: the file size must be between 0 and MaxFileSize, because the source writes past `dataSectors` otherwise.
- FileSystems.FileSystem.WriteThrough: the handle must belong to a file that has not been removed since it was opened (`HandleSurvivesRun` keeps it good until then); the source does not track this either.
- Directories.Directory.WriteBack: padding bytes inside a directory entry are written as zeros.
- ConsoleInput.CharactersInOrder: what Read returns when asked for no characters is not determined, because the source tests an uninitialised variable.
- Machines.Machine.Division: -2^31 / -1, which C leaves undefined, wraps.
- Machines.Machine.LoadPart: the cases for addresses that are not multiples of four cannot be reached past the assertion and are not modelled.
- Machines.Machine.StorePart: the same.
- Loader.BuildSpace: code starts at virtual address 0 with the data right after it, and sizes stay within 32-bit arithmetic; reading the header from the file is left out.
- The first `AddrSpace` constructor (`addrspace.cc:64-128`), which loads at physical address = virtual address.
- The software-managed TLB and big-endian hosts.
- `Lock`, `Condition`, `SynchList`, concurrent use of `SynchDisk`, and the network: the locks are empty stubs, so sector transfers are atomic here.
- The table of open files, `Close`, console devices opened as files, listing and printing.
- Named semaphores of user programs (`STable`): a lookup by name in front of the semaphores modelled here.
- System-call dispatch (`exception.cc`), except the existence test in front of `JoinUpdate`; `SC_Fork` and `SC_Sleep`.
- Floating-point comparison is an abstract total preorder; NaN is left out.
- Stack allocation, `SWITCH`, statistics, debugging output, destructors and the object-file converters.
