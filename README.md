# ok: a stack-based bytecode VM, modelled in Dafny

`ok` is a small virtual machine. It has two 256-byte stacks, each with an
8-bit wrapping pointer: the data stack and the return stack. RAM and ROM
are each 2^24 bytes. Every instruction is one byte, laid out `1baaoooo`:

- bit 7 clear halts the machine;
- bit 6 is the skip flag, which makes the instruction depend on a condition
  byte on the data stack;
- bits 5-4 give the operand width minus one;
- bits 3-0 are the opcode.

Host callbacks ("devices") are reached through the interrupt opcode. The
status is Running, Halted or Panic.

The repository holds three iterations of the interpreter and a standalone
stack. They differ in byte order, in skip semantics and in how devices are
dispatched, so each is modelled on its own:

- `ok.h`, the newest: value semantics `OkSpec`, in-place machine
  `OkMachine.OkVM`, properties `OkProps`.
- `okvm.h`: `OkvmSpec`, `OkvmMachine.OkVM`, `OkvmProps`.
- `src/okvm.c`, the earliest: `SrcOkvmSpec`, `SrcOkvmMachine.OkVM`,
  `SrcOkvmProps`.
- `src/okstack.c`: the value stack `ByteStack` and the class
  `OkStack.OkStack` with the lemmas of module `OkStack`.

The model is built in three layers.

- **Shared modules.**
  - `Bytes`: `uint8_t` and `uint32_t` with their wrap-around, and byte
    extraction.
  - `Instruction`: the `1baaoooo` decoder with its inverse.
  - `ByteStack`: the 256-byte stack as a value. `Window(s, k)` is the k
    topmost bytes, bottom first. Both multi-byte orders are here:
    - `TopLow`: ok.h puts the least significant byte on top.
    - `TopHigh`: okvm.h and src/okvm.c put the most significant byte on
      top.
- **In-place machines.** The C code updates its structs in place, so each
  iteration has a class whose methods update arrays and fields.
  - ok.h keeps `dst[256]` and `dsp` inside the VM.
  - okvm.h and src/okvm.c hold two `OkStack` objects.
- **Specifications and properties.** Each class method is proved to leave
  the object in exactly the state that a function of the old state
  computes: `Model() == Spec(old(Model()))`. What the source promises is
  then proved about those functions as lemmas. These cover:
  - per-opcode stack effects;
  - round trips (push then pop, store then load, psh then pop, lit then
    jmp);
  - skip behaviour;
  - the device registry;
  - frame conditions (what each opcode may change);
  - the status machine.

Stack effects are stated on windows of the stack, and pointer movement is
stated with `Moved(from, to, d)`, which means modulo 256. Both stay correct
when the 8-bit pointer wraps.

### Quirks of the source that the model keeps

- `stack_pop` zeroes the slot at the *old* pointer, not the slot it reads
  (ok.h:59, okvm.h:75, src/okstack.c:14).
- ok.h registration accepts a port that is already registered. The scan
  then finds the first registration (`OkProps.RegisterThenFind`).
- ok.h and okvm.h `str` write the top byte at the *highest* address.
  src/okvm.c writes it at the *lowest*. Neither is "most significant byte
  first in memory".
- In okvm.h and src/okvm.c the top of the stack is the *most* significant
  byte, even though the comment at okvm.h:80 says otherwise
  (`ByteStack.PushTopHighTop`).
- Halted and Panic are not terminal inside the core. `tick` executes
  whatever the pc points at, and stopping is left to the driver.
  `OkProps.TickStatus` shows only that a tick never *sets* Running.
- ok.h `okvm_init` never assigns `dsp` or `rsp`. The constructor promises
  nothing about them.
- src/okvm.c uses `VM_WORD_SIZE`, `VM_HALTED` and `VM_PANIC`, which its
  header does not define (its header has `OKVM_WORD_SIZE` = 3). The model
  takes a word size of 3 and the ok.h status names.
- src/test_vm.c is written against a later interface (a three-argument
  `okvm_init`). Its expectations for str and for a skipped lit do not match
  src/okvm.c. The model follows src/okvm.c.

## Model

| member | source | states |
|---|---|---|
| ByteStack.PushWindow | src/okstack.c:7-10 | push puts x on top of the k bytes that were there and moves the pointer up by one modulo 256 |
| ByteStack.PopWindow | src/okstack.c:12-16 | pop returns the top byte, the k bytes beneath it stay, and the pointer moves down by one modulo 256 |
| ByteStack.PushPopAll | ok.h:52-61 | popping as many bytes as were pushed returns them in push order and restores the pointer and the bytes below |
| ByteStack.PopAllWindow | ok.h:489-491 | the n bytes popped are the top n of the window and the rest of the window stays, pointer down by n |
| ByteStack.PushAllWindow | ok.h:475-477 | pushing a byte sequence appends it on top of the window, pointer up by its length |
| ByteStack.PopTopLow | ok.h:64-71 | `stack_popn` of ok.h yields a value below 2^(8n) |
| ByteStack.PopTopHigh | okvm.h:81-88 | `stack_popn` of okvm.h and src/okvm.c yields a value below 2^(8n) |
| ByteStack.DecodeEncodeTopLow | ok.h:63-79 | decoding the ok.h byte layout of v gives v mod 2^(8n) |
| ByteStack.DecodeEncodeTopHigh | okvm.h:79-96 | decoding the okvm.h byte layout of v gives v mod 2^(8n) |
| ByteStack.EncodeDecodeTopLow | ok.h:63-79 | encoding the decoded value of n bytes gives the same n bytes back (ok.h order) |
| ByteStack.EncodeDecodeTopHigh | okvm.h:79-96 | encoding the decoded value of n bytes gives the same n bytes back (okvm.h order) |
| ByteStack.DecodeFits | ok.h:64-71 | up to four bytes decode to a value that fits a `uint32_t`, in either order |
| ByteStack.RoundTripTopLow | ok.h:63-79 | ok.h `popn(n)` right after `pushn(n, v)` returns v mod 2^(8n) and restores the pointer and every byte below |
| ByteStack.RoundTripTopHigh | okvm.h:81-96 | okvm.h and src/okvm.c `popn(n)` right after `pushn(n, v)` returns v mod 2^(8n) and restores the pointer and every byte below |
| ByteStack.PushTopLowTop | ok.h:74-79 | after ok.h `pushn` the top byte is the least significant byte of v |
| ByteStack.PushTopHighTop | okvm.h:91-96 | after okvm.h `pushn` the top byte is byte n-1 of v, the most significant of the n |
| ByteStack.PushTopLowWindow | ok.h:74-79 | ok.h `pushn` lays the n encoded bytes on top and keeps the bytes below; pointer up by n |
| ByteStack.PopTopLowWindow | ok.h:64-71 | ok.h `popn` returns the value whose encoding is the top n bytes and keeps the bytes below; pointer down by n |
| ByteStack.PushTopHighWindow | okvm.h:91-96 | okvm.h `pushn` lays the n encoded bytes on top and keeps the bytes below; pointer up by n |
| ByteStack.PopTopHighWindow | okvm.h:81-88 | okvm.h `popn` returns the value whose encoding is the top n bytes and keeps the bytes below; pointer down by n |
| ByteStack.EncodeTopLowInjective | ok.h:74-79 | two values below 2^(8n) with the same ok.h encoding are equal |
| ByteStack.EncodeTopHighInjective | okvm.h:91-96 | two values below 2^(8n) with the same okvm.h encoding are equal |
| Instruction.Decode | ok.h:519-535 | the four decoded fields re-encode to the same byte, so no bit of the instruction is lost |
| Instruction.DecodeEncode | ok.h:528-532 | decoding an encoded instruction recovers the halt bit, skip flag, width and opcode |
| Instruction.ClearSkip | okvm.h:358-369 | clearing bit 6 changes only the skip field of the decoded instruction |
| OkStack.OkStack.Init | src/okstack.c:3-5 | `stack_init` gives pointer 0 and 256 zero slots |
| OkStack.OkStack.Push | src/okstack.c:7-10 | `stack_push` leaves the stack that `ByteStack.Push` computes: `data[sp] = x`, then the pointer up modulo 256 |
| OkStack.OkStack.Pop | src/okstack.c:12-16 | `stack_pop` returns and leaves what `ByteStack.Pop` computes: the byte below the pointer, the old pointer slot zeroed, the pointer down modulo 256 |
| OkStack.OkStack.PopN | okvm.h:81-88 | the loop that shifts `out` left by 8 and ors in each popped byte leaves the result and stack of `PopTopHigh` (also src/okvm.c:8-15) |
| OkStack.OkStack.PushN | okvm.h:91-96 | the loop pushing byte i of val for i = 0 up to n-1 leaves the stack of `PushTopHigh` (also src/okvm.c:17-22) |
| OkStack.FullWrap | src/okstack.c:7-10 | 256 pushes bring the pointer back to where it started, and no shorter run of pushes does |
| OkStack.Lifo | src/okstack.c:7-16 | popping as many bytes as were pushed returns them last-in first-out and restores the pointer |
| OkStack.PopEmptyWraps | src/okstack.c:12-16 | popping an empty stack wraps the pointer to 255 and returns the byte in slot 255 |
| OkStack.PopZeroesOldPointer | src/okstack.c:14 | pop zeroes the slot at the old pointer, leaves the returned byte in its own slot and touches no other slot |
| OkStack.PushPopScenario | src/test_stack.c:13-26 | pushing 2, 3, 4 on a fresh stack pops 4, 3, 2 with the pointer back at 0; one more pop yields 0 with the pointer at 255 |
| OkStack.RunScenario | src/test_stack.c:7-26 | the same scenario run on an `OkStack` object returns 4, 3, 2, pointer 0, then 0 and pointer 255 |
| OkSpec.FindPort | ok.h:235-241 | the scan returns the first index below `num_devices` whose port matches, or none when no port matches |
| OkMachine.OkVM.Init | ok.h:124-151 | both stacks zeroed, pc 0, no devices, status Halted, RAM zero, ROM = program followed by zeros; the stack pointers are not promised |
| OkMachine.OkVM.StackPush | ok.h:52-55 | the data stack becomes `ByteStack.Push` of the old one |
| OkMachine.OkVM.StackPop | ok.h:57-61 | returns and leaves `ByteStack.Pop` of the old data stack |
| OkMachine.OkVM.StackPopN | ok.h:64-71 | the loop that ors popped byte i in at bit 8i returns and leaves `PopTopLow`: the first byte popped is the least significant |
| OkMachine.OkVM.StackPushN | ok.h:74-79 | the loop pushing byte i for i = n-1 down to 0 leaves `PushTopLow` of the old data stack |
| OkMachine.OkVM.RStackPush | ok.h:82-85 | the return stack becomes `ByteStack.Push` of the old one |
| OkMachine.OkVM.RStackPop | ok.h:87-91 | returns and leaves `ByteStack.Pop` of the old return stack |
| OkMachine.OkVM.RStackPopN | ok.h:94-101 | returns and leaves `PopTopLow` of the old return stack |
| OkMachine.OkVM.RStackPushN | ok.h:104-109 | leaves `PushTopLow` of the old return stack |
| OkMachine.OkVM.RegisterDevice | ok.h:199-209 | result code and new machine are those of `OkSpec.Register` |
| OkMachine.OkVM.TriggerDevice | ok.h:232-259 | the port scan loop and dispatch leave the machine `OkSpec.Trigger` computes |
| OkMachine.OkVM.TriggerEach | ok.h:504-506 | triggering each byte of `buff` in turn leaves `OkSpec.TriggerAll` |
| OkMachine.OkVM.ExecArith | ok.h:271-312 | add, and, xor (with or without skip flag) leave `OkSpec.Arith` of the old data stack; the frame lets them change the data stack only |
| OkMachine.OkVM.ExecShf | ok.h:313-331 | shf leaves `OkSpec.Shf` of the old data stack; the frame lets it change the data stack only |
| OkMachine.OkVM.ExecSwp | ok.h:332-350 | swp leaves `OkSpec.Swp` of the old data stack; the frame lets it change the data stack only |
| OkMachine.OkVM.ExecCmp | ok.h:351-377 | cmp leaves `OkSpec.Cmp` of the old data stack; the frame lets it change the data stack only |
| OkMachine.OkVM.StoreBytes | ok.h:389-391 | the loop for i = argsize down to 0 pops w bytes and writes them to `ram[addr..addr+w-1]` in stack order (top byte at the highest address) |
| OkMachine.OkVM.StoreNext | ok.h:390 | one turn of the store loop: with j bytes already stored above a, the next byte popped goes to a and the written range grows down by one |
| OkMachine.OkVM.ExecStr | ok.h:378-393 | str leaves `OkSpec.Str` of the old machine |
| OkMachine.OkVM.LoadBytes | ok.h:405-407 | the loop pushes `ram[addr]` up to `ram[addr+w-1]` in ascending order |
| OkMachine.OkVM.ExecLod | ok.h:394-409 | lod leaves `OkSpec.Lod` of the old machine |
| OkMachine.OkVM.ExecDup | ok.h:410-424 | dup leaves `OkSpec.Dup` and changes nothing else |
| OkMachine.OkVM.ExecDrp | ok.h:425-433 | drp leaves `OkSpec.Drp` and changes nothing else |
| OkMachine.OkVM.ExecPsh | ok.h:434-446 | psh leaves `OkSpec.Psh` of the old machine |
| OkMachine.OkVM.ExecPop | ok.h:447-459 | pop leaves `OkSpec.PopR` of the old machine |
| OkMachine.OkVM.ExecJmp | ok.h:460-471 | jmp leaves `OkSpec.Jmp` of the old machine |
| OkMachine.OkVM.Fetch | ok.h:211-213 | returns `rom[pc]` and advances pc by one, as `OkSpec.Fetch` |
| OkMachine.OkVM.PushImmediates | ok.h:483-485 | the lit loop pushes `rom[pc..pc+w-1]` in ROM order and advances pc by exactly w |
| OkMachine.OkVM.ExecLit | ok.h:472-487 | lit (executed or skipped) leaves `OkSpec.Lit` of the old machine |
| OkMachine.OkVM.PopBuffer | ok.h:489-491 | `buff[i] = pop()` fills buff with the top w bytes, top first, and removes them |
| OkMachine.OkVM.PopNext | ok.h:490 | one turn of `buff[i] = pop()`: the byte popped is appended, so buff stays the popped bytes, top first |
| OkMachine.OkVM.RestoreBytes | ok.h:499-501 | pushing buff from the last index down restores the bytes in their original stack order |
| OkMachine.OkVM.ExecInt | ok.h:488-509 | int leaves `OkSpec.Int` of the old machine |
| OkMachine.OkVM.ExecNop | ok.h:510-515 | nop leaves `OkSpec.Nop`: with the skip flag a condition byte is still popped |
| OkMachine.OkVM.HandleOpcode | ok.h:261-517 | every opcode leaves `OkSpec.Handle` of the old machine |
| OkMachine.OkVM.Execute | ok.h:519-536 | `execute` leaves `OkSpec.Execute` of the old machine |
| OkMachine.OkVM.Tick | ok.h:218-223 | `okvm_tick` leaves `OkSpec.Tick` and returns the new status |
| OkProps.ArithEffect | ok.h:271-312 | with words a under b on top, add/and/xor replace both by the single w-byte word `a op b` and keep the k bytes beneath; pointer down by w |
| OkProps.AddTruncates | ok.h:282 | the word add pushes reads back as (a + b) mod 2^(8w): the 32-bit wrap loses nothing visible |
| OkProps.SwpEffect | ok.h:345-349 | swp exchanges the two top w-byte words, keeps the bytes beneath and the pointer |
| OkProps.CmpEffect | ok.h:368-376 | cmp replaces both words by one byte: 1 if a > b, 255 if a < b, 0 if equal |
| OkProps.ShfEffect | ok.h:326-330 | shf replaces the control byte and the word n by `((n >> (ctrl & 15)) << (ctrl >> 4))` mod 2^(8w); pointer down by one |
| OkProps.DupEffect | ok.h:420-423 | dup pushes a second copy of the top w-byte word above the untouched stack |
| OkProps.DrpEffect | ok.h:425-433 | drp removes exactly the top w bytes |
| OkProps.RestoreTwo | ok.h:277-279 | two words popped, a zero condition popped, both pushed back: the stack is as before minus the condition byte |
| OkProps.ArithSkip | ok.h:274-281 | skip-flagged add/and/xor on a zero condition byte under the operands loses only that byte |
| OkProps.SwpSkip | ok.h:336-344 | skip-flagged swp on a zero condition loses only the condition byte; the operands keep their order |
| OkProps.CmpSkip | ok.h:355-367 | skip-flagged cmp on a zero condition loses only the condition byte |
| OkProps.ShfSkip | ok.h:317-325 | skip-flagged shf on a zero condition loses only the condition byte; value and control byte return |
| OkProps.DupSkip | ok.h:413-419 | skip-flagged dup on a zero condition loses only the condition byte |
| OkProps.DrpSkip | ok.h:428-432 | skip-flagged drp on a zero condition loses only the condition byte |
| OkProps.NopSkip | ok.h:510-515 | skip-flagged nop pops exactly one byte and changes nothing else on the stack |
| OkProps.StrSkip | ok.h:380-387 | skip-flagged str on a zero condition pushes the address back, loses only the condition byte and leaves RAM alone |
| OkProps.LodSkip | ok.h:396-403 | skip-flagged lod on a zero condition pushes the address back and loses only the condition byte |
| OkProps.PshSkip | ok.h:437-442 | skip-flagged psh on a zero condition loses only the condition byte and leaves the return stack alone |
| OkProps.JmpSkip | ok.h:462-467 | skip-flagged jmp on a zero condition loses only the condition byte and keeps the pc |
| OkProps.PopRSkip | ok.h:450-455 | skip-flagged pop on a zero condition moves the value back onto the return stack and loses only the condition byte |
| OkProps.LitSkip | ok.h:478-481 | skip-flagged lit on a zero condition pushes nothing, loses the condition byte and still advances pc by w |
| OkProps.IntSkip | ok.h:493-502 | skip-flagged int on a zero condition pushes the w ports back in order, triggers nothing and loses only the condition byte |
| OkProps.SkipZeroKeeps | ok.h:271-515 | for every opcode, skip flag with a zero condition: only the condition byte leaves the data stack; the return stack, RAM, registry and status stay; pc moves only for lit, by w |
| OkProps.ArithRuns | ok.h:271-312 | skip flag with a non-zero condition under words a and b: add/and/xor leave the one word `a op b` where operands and condition were, as `ArithEffect` does on the stack without the condition; pointer down by w + 1 |
| OkProps.SwpRuns | ok.h:333-340 | skip flag with a non-zero condition: swp exchanges the two words above it and the condition byte is gone; pointer down by one |
| OkProps.CmpRuns | ok.h:352-363 | skip flag with a non-zero condition: cmp leaves one byte, 1 if a > b, 255 if a < b, 0 if equal, where both words and the condition were |
| OkProps.ShfRuns | ok.h:314-321 | skip flag with a non-zero condition under the value: shf leaves the shifted word mod 2^(8w) where control byte, value and condition were; pointer down by two |
| OkProps.DupRuns | ok.h:411-416 | skip flag with a non-zero condition: dup leaves two copies of the word where word and condition were |
| OkProps.DrpRuns | ok.h:426-432 | skip flag with a non-zero condition: drp removes the word and the condition and nothing else |
| OkProps.StrRuns | ok.h:379-384 | skip flag with a non-zero condition under the address: str writes the w bytes beneath the condition to `ram[addr..addr+w-1]`, top byte highest, removes address, condition and bytes, and changes nothing else |
| OkProps.LodRuns | ok.h:395-400 | skip flag with a non-zero condition: lod replaces address and condition by `ram[addr..addr+w-1]`, ascending |
| OkProps.PshRuns | ok.h:435-439 | skip flag with a non-zero condition: psh moves the word, in order, onto the return stack and the condition is gone |
| OkProps.PopRRuns | ok.h:448-452 | skip flag with a non-zero condition on top: pop moves the top w return-stack bytes, in order, onto the data stack in place of the condition |
| OkProps.JmpRuns | ok.h:461-464 | skip flag with a non-zero condition: jmp sets pc to the popped word and removes word and condition |
| OkProps.LitRuns | ok.h:473-477 | skip flag with a non-zero condition on top: lit pushes `rom[pc..pc+w-1]` in ROM order in place of the condition and advances pc by w |
| OkProps.IntRuns | ok.h:489-497 | skip flag with a non-zero condition under the ports: int triggers the w ports in pop order on the stack without ports and condition |
| OkProps.StrEffect | ok.h:388-392 | str writes the w bytes under the address to `ram[addr..addr+w-1]`, the top byte at `addr + w - 1`, removes address and bytes, and changes nothing else |
| OkProps.LodEffect | ok.h:404-408 | lod replaces the address by `ram[addr..addr+w-1]`, ascending, and changes nothing else |
| OkProps.StoreThenLoad | ok.h:378-409 | str then lod at the same address and width puts the same stack bytes back, with RAM as str left it |
| OkProps.PshEffect | ok.h:443-445 | psh moves the top w bytes of the data stack, in order, onto the return stack |
| OkProps.PopREffect | ok.h:456-458 | pop moves the top w bytes of the return stack, in order, onto the data stack |
| OkProps.PshThenPop | ok.h:434-459 | psh then pop of the same width gives back both stacks and both pointers |
| OkProps.JmpEffect | ok.h:468-470 | jmp sets pc to the popped w-byte value (least significant byte on top) and changes nothing else |
| OkProps.LitEffect | ok.h:482-486 | lit pushes `rom[pc..pc+w-1]` in ROM order and advances pc by exactly w |
| OkProps.LitThenJmp | ok.h:460-487 | lit then jmp of the same width jumps to the address written after the lit and restores the stack pointer |
| OkProps.RegisterFull | ok.h:201 | a full registry returns 1 and changes nothing |
| OkProps.RegisterAppends | ok.h:204-208 | otherwise (port, fn) goes to index `num_devices`, earlier entries stay, the count grows by one, 0 is returned |
| OkProps.RegisterThenFind | ok.h:235-241 | after registering, the scan finds an earlier registration of the same port if there is one, else the new entry |
| OkProps.TriggerEffect | ok.h:232-259 | no matching port, or a null callback, sets Panic and changes nothing else; a callback pushes exactly its one result byte and leaves its RAM |
| OkProps.TriggerAllFrame | ok.h:504-506 | a run of triggers never changes pc, return stack, ROM or registry, and can set the status only to Panic |
| OkProps.IntEffect | ok.h:488-509 | int pops w ports and triggers them in pop order, the former top first |
| OkProps.HaltOnClearBit | ok.h:519-526 | a byte with bit 7 clear only sets Halted, after the fetch has moved pc past it |
| OkProps.HandleFrame | ok.h:261-517 | ROM and the registry never change; RAM only under str and int; status only under int and only to Panic; pc only under jmp and lit; return stack only under psh and pop |
| OkProps.TickStatus | ok.h:218-223 | a tick halts on bit 7 clear, otherwise changes the status only under int and only to Panic; it is Running afterwards only if it was before |
| OkvmSpec.Initial | okvm.h:111-135 | `okvm_init` leaves empty zeroed stacks and ROM = program followed by zeros |
| OkvmSpec.Slot | okvm.h:216 | the device slot of a selector is below 16 |
| OkvmSpec.Op | okvm.h:217 | the operation of a selector is below 16 |
| OkvmMachine.OkVM.Init | okvm.h:111-135 | fresh stacks and the state `OkvmSpec.Initial` describes |
| OkvmMachine.OkVM.RegisterDevice | okvm.h:180-191 | result and new machine are those of `OkvmSpec.Register` |
| OkvmMachine.OkVM.TriggerDevice | okvm.h:215-229 | leaves `OkvmSpec.Trigger` of the old machine |
| OkvmMachine.OkVM.ExecArith | okvm.h:240-254 | add, and, xor leave `OkvmSpec.Arith` of the old data stack and change nothing else |
| OkvmMachine.OkVM.ExecShf | okvm.h:255-261 | shf leaves `OkvmSpec.Shf` and changes nothing else |
| OkvmMachine.OkVM.ExecSwp | okvm.h:262-268 | swp leaves `OkvmSpec.Swp` and changes nothing else |
| OkvmMachine.OkVM.ExecCmp | okvm.h:269-279 | cmp leaves `OkvmSpec.Cmp` and changes nothing else |
| OkvmMachine.OkVM.StoreByte | okvm.h:283 | one turn of the store loop pops a byte and writes it at one address, nothing more |
| OkvmMachine.OkVM.StoreBytes | okvm.h:282-284 | the loop pops w bytes and writes them to `ram[addr..addr+w-1]` in stack order |
| OkvmMachine.OkVM.ExecStr | okvm.h:280-285 | str leaves `OkvmSpec.Str` of the old machine |
| OkvmMachine.OkVM.ExecLod | okvm.h:286-291 | lod leaves `OkvmSpec.Lod` of the old machine |
| OkvmMachine.OkVM.ExecDup | okvm.h:292-296 | dup leaves `OkvmSpec.Dup` and changes nothing else |
| OkvmMachine.OkVM.ExecDrp | okvm.h:297-299 | drp leaves `OkvmSpec.Drp` and changes nothing else |
| OkvmMachine.OkVM.ExecPsh | okvm.h:300-303 | psh leaves `OkvmSpec.Psh` of the old machine |
| OkvmMachine.OkVM.ExecPop | okvm.h:304-307 | pop leaves `OkvmSpec.PopR` of the old machine |
| OkvmMachine.OkVM.ExecJmp | okvm.h:308-310 | jmp leaves `OkvmSpec.Jmp` of the old machine |
| OkvmMachine.OkVM.Fetch | okvm.h:194 | returns `rom[pc]` and advances pc by one, nothing else |
| OkvmMachine.OkVM.ExecLit | okvm.h:311-315 | lit leaves `OkvmSpec.Lit` of the old machine |
| OkvmMachine.OkVM.ExecInt | okvm.h:316-320 | int leaves w turns of `OkvmSpec.IntLoop` |
| OkvmMachine.OkVM.ExecSys | okvm.h:321-338 | sys leaves `OkvmSpec.Sys` of the old machine |
| OkvmMachine.OkVM.HandleOpcode | okvm.h:231-341 | every opcode leaves `OkvmSpec.Handle` of the old machine |
| OkvmMachine.OkVM.Execute | okvm.h:343-370 | `execute`, including the skip pop and the lit-skip loop, leaves `OkvmSpec.Execute` |
| OkvmMachine.OkVM.Tick | okvm.h:199-204 | `okvm_tick` leaves `OkvmSpec.Tick` and returns the new status |
| OkvmProps.SkipZero | okvm.h:359-366 | skip flag with a zero byte on top: only that byte is popped, nothing runs, and a lit also moves pc past its w immediates |
| OkvmProps.SkipNonzero | okvm.h:359-369 | skip flag with a non-zero byte on top: that byte is popped and the instruction runs exactly as its unflagged form |
| OkvmProps.ArithEffect | okvm.h:240-254 | with words a under b on top, add/and/xor replace both by the one w-byte word `a op b`, most significant byte on top, and keep the bytes beneath; pointer down by w |
| OkvmProps.AddTruncates | okvm.h:241-243 | the next w-byte pop after add reads (a + b) mod 2^(8w) |
| OkvmProps.ShfEffect | okvm.h:255-261 | shf replaces the control byte and the word n by `((n >> (ctrl & 15)) << (ctrl >> 4))` mod 2^(8w); pointer down by one |
| OkvmProps.SwpEffect | okvm.h:262-268 | swp exchanges the two top w-byte words and keeps the bytes beneath and the pointer |
| OkvmProps.CmpEffect | okvm.h:269-279 | cmp replaces both words by one byte: 1 if a > b, 255 if a < b, 0 if equal |
| OkvmProps.DupEffect | okvm.h:292-296 | dup pushes a second copy of the top w-byte word above the untouched stack |
| OkvmProps.DrpEffect | okvm.h:297-299 | drp removes exactly the top w bytes |
| OkvmProps.LitEffect | okvm.h:311-315 | lit pushes `rom[pc..pc+w-1]` in ROM order and advances pc by exactly w |
| OkvmProps.HaltOnClearBit | okvm.h:347-350 | a byte with bit 7 clear only sets Halted, after the fetch has moved pc past it |
| OkvmProps.ValueOnTop | okvm.h:81-88 | `popn` on the okvm.h encoding of v returns v |
| OkvmProps.JumpToZeroHalts | okvm.h:308-310 | a jmp to an address holding 0 lands there, and the next tick halts with pc = target + 1 |
| OkvmProps.RegisterFull | okvm.h:184 | a full table returns 1 and changes nothing |
| OkvmProps.RegisterFills | okvm.h:187-190 | otherwise the callback goes to slot `num_devices`, other slots stay, the count grows by one, 0 is returned |
| OkvmProps.TriggerEffect | okvm.h:215-229 | an empty slot sets Panic and changes nothing else; a callback pushes exactly its result for the op nibble |
| OkvmProps.RegisterThenTrigger | okvm.h:180-229 | a callback registered in slot s answers every selector whose high nibble is s, pushing its result and keeping the status |
| OkvmProps.IntNoDevices | okvm.h:316-320 | with every slot empty, n turns of the int loop pop the n top bytes as selectors, push nothing, keep the bytes beneath and set Panic |
| OkvmProps.IntPopsDeviceResult | okvm.h:317-319 | when the first selector reaches a callback, the next turn pops that callback's result as its selector |
| OkvmProps.IntPanicContinues | okvm.h:317-319 | when the first selector finds an empty slot, Panic is set and the next turn pops the byte that was second |
| OkvmProps.IntLoopFrame | okvm.h:316-320 | the int loop never changes pc, return stack, RAM, ROM or the table, and sets the status only to Panic |
| OkvmProps.SysEffect | okvm.h:321-338 | sys pushes 3; the device count; `dst.sp` then `rst.sp`; or `pc - 1` as a 3-byte word, and changes nothing else |
| OkvmProps.StrEffect | okvm.h:280-285 | str writes the w bytes under the address to `ram[addr..addr+w-1]`, the top byte at `addr + w - 1`, removes address and bytes, changes nothing else |
| OkvmProps.LodEffect | okvm.h:286-291 | lod replaces the address by `ram[addr..addr+w-1]`, ascending, and changes nothing else |
| OkvmProps.StoreThenLoad | okvm.h:280-291 | str then lod at the same address and width puts the same stack bytes back |
| OkvmProps.MoveWord | okvm.h:300-307 | a w-byte value popped from one stack and pushed on the other arrives byte for byte in the same order |
| OkvmProps.PshThenPop | okvm.h:300-307 | psh then pop of the same width gives back both stacks and pointers |
| OkvmProps.HandleFrame | okvm.h:231-341 | ROM and the table never change; RAM only under str; status only under int and only to Panic; pc only under jmp and lit; return stack only under psh and pop |
| SrcOkvmSpec.Initial | src/okvm.c:24-33 | `vm_init` leaves empty stacks, zero RAM and the program itself as ROM |
| SrcOkvmSpec.Dmd | src/okvm.c:69-70 | for a ≠ 0 the two words satisfy a * quotient + remainder = b with remainder < a |
| SrcOkvmMachine.OkVM.Init | src/okvm.c:24-33 | fresh stacks and RAM; ROM is the caller's program array itself (aliased, not copied) |
| SrcOkvmMachine.OkVM.PopOperands | src/okvm.c:49-52 | pops b, then a, as `SrcOkvmSpec.Operands` |
| SrcOkvmMachine.OkVM.ExecBinary | src/okvm.c:48-90 | asb, dmd, aor, mxr, swp and cmp leave `SrcOkvmSpec.Binary` of the old machine |
| SrcOkvmMachine.OkVM.StoreByte | src/okvm.c:95 | one turn of the store loop pops a byte and writes it at one address |
| SrcOkvmMachine.OkVM.StoreBytes | src/okvm.c:94-96 | the ascending loop writes the w popped bytes to `ram[addr..]`, first popped at the lowest address |
| SrcOkvmMachine.OkVM.StoreNext | src/okvm.c:95 | one turn of the ascending store loop: after i + 1 turns ram holds the bytes popped so far, reversed, from addr |
| SrcOkvmMachine.OkVM.ExecStr | src/okvm.c:91-97 | str leaves `SrcOkvmSpec.Str` of the old machine |
| SrcOkvmMachine.OkVM.ExecLod | src/okvm.c:98-103 | lod leaves `SrcOkvmSpec.Lod` of the old machine |
| SrcOkvmMachine.OkVM.ExecDup | src/okvm.c:104-110 | dup, running on into drp, leaves `SrcOkvmSpec.DupDrp` |
| SrcOkvmMachine.OkVM.ExecDrp | src/okvm.c:108-110 | drp leaves `SrcOkvmSpec.Drp` |
| SrcOkvmMachine.OkVM.ExecPsh | src/okvm.c:111-114 | psh leaves `SrcOkvmSpec.Psh` |
| SrcOkvmMachine.OkVM.ExecPop | src/okvm.c:115-118 | pop leaves `SrcOkvmSpec.PopR` |
| SrcOkvmMachine.OkVM.ExecJmp | src/okvm.c:119-121 | jmp leaves `SrcOkvmSpec.Jmp` |
| SrcOkvmMachine.OkVM.Fetch | src/okvm.c:40-44 | returns `rom[pc]` and advances pc by one, nothing else |
| SrcOkvmMachine.OkVM.ExecLit | src/okvm.c:122-126 | lit leaves `SrcOkvmSpec.Lit` |
| SrcOkvmMachine.OkVM.ExecDbg | src/okvm.c:149-166 | dbg leaves `SrcOkvmSpec.Dbg` |
| SrcOkvmMachine.OkVM.HandleOpcode | src/okvm.c:46-168 | every opcode, with both fall-throughs, leaves `SrcOkvmSpec.Handle` |
| SrcOkvmMachine.OkVM.Execute | src/okvm.c:170-193 | `execute` leaves `SrcOkvmSpec.Execute` |
| SrcOkvmMachine.OkVM.Tick | src/okvm.c:195-202 | `vm_tick` leaves `SrcOkvmSpec.Tick` and returns the new status |
| SrcOkvmProps.SkipNot255 | src/okvm.c:180-185 | skip flag with anything but 0xFF on top: only that byte is popped; pc does not move, so a lit's immediates are not skipped |
| SrcOkvmProps.Skip255 | src/okvm.c:180-192 | skip flag with 0xFF on top: that byte is popped and the instruction runs as its unflagged form |
| SrcOkvmProps.HaltOnClearBit | src/okvm.c:174-177 | a byte with bit 7 clear only sets Halted, after the fetch has moved pc past it |
| SrcOkvmProps.OperandsAre | src/okvm.c:49-52 | with words a under b on top, the shared pops find exactly a and b and remove 2w bytes |
| SrcOkvmProps.ResultWords | src/okvm.c:59-85 | the two pushed words land on the stack and read back as lower and upper modulo 2^(8w) |
| SrcOkvmProps.BinaryWords | src/okvm.c:48-85 | asb, dmd, aor, mxr and swp replace a and b by the two result words; only dmd by zero changes the status, to Panic |
| SrcOkvmProps.AsbAorEffect | src/okvm.c:59-76 | asb and aor leave (b - a) mod 2^(8w) under (b + a) mod 2^(8w), and the two opcodes behave identically |
| SrcOkvmProps.DmdEffect | src/okvm.c:63-72 | dmd by 0 leaves two zero words and sets Panic; otherwise remainder under quotient, with a * q + r = b and r < a |
| SrcOkvmProps.MxrEffect | src/okvm.c:77-80 | mxr leaves `b ^ a` under (b * a) mod 2^(8w) |
| SrcOkvmProps.SwpEffect | src/okvm.c:81-85 | swp exchanges the two top words, a ending on top |
| SrcOkvmProps.CmpEffect | src/okvm.c:86-90 | cmp replaces both words by two bytes: 255 if b > a else 0, then 255 if b == a else 0 |
| SrcOkvmProps.DupNetNoop | src/okvm.c:104-110 | dup running into drp leaves the pointer and the bytes beneath exactly as they were |
| SrcOkvmProps.DrpEffect | src/okvm.c:108-110 | drp removes exactly the top w bytes |
| SrcOkvmProps.StrRam | src/okvm.c:91-97 | str writes the w bytes under the discarded word, reversed, from addr upwards |
| SrcOkvmProps.StrEffect | src/okvm.c:91-97 | str also removes address, discarded word and stored bytes (3 + 2w bytes) and changes nothing else |
| SrcOkvmProps.StrLowestAddress | src/okvm.c:94-96 | the byte nearest the top of those stored lands at addr itself |
| SrcOkvmProps.LodEffect | src/okvm.c:98-103 | lod replaces the address by `ram[addr..addr+w-1]`, ascending |
| SrcOkvmProps.StoreThenLoadReverses | src/okvm.c:91-103 | str then lod at the same address gives the stored bytes back in reverse order |
| SrcOkvmProps.PshThenPop | src/okvm.c:111-118 | psh then pop of the same width gives back both stacks and pointers |
| SrcOkvmProps.JmpEffect | src/okvm.c:119-121 | jmp sets pc to the popped w-byte value, most significant byte on top, and changes nothing else |
| SrcOkvmProps.LitEffect | src/okvm.c:122-126 | lit pushes the w immediates in program order and advances pc by exactly w |
| SrcOkvmProps.DbgEffect | src/okvm.c:149-166 | dbg pushes `dst.sp`; `rst.sp`; pc mod 256 as a 3-byte word; or 3, and changes nothing else |
| SrcOkvmProps.HandleFrame | src/okvm.c:46-168 | ROM never changes; RAM only under str; status only under dmd, only to Panic; pc only under jmp and lit; return stack only under psh and pop; syn changes nothing |

## Left out

- `okvm_init_from_file` (ok.h:155-196, okvm.h:139-178): file I/O. Only its size bound appears, as the `|program| <= 2^24` precondition of the ok.h and okvm.h constructors.
- `calloc`, `free`, `okvm_free`, `vm_free` and allocation failure: RAM and ROM are arrays that always exist. The nonzero return of a failed `calloc` is not modelled.
- Device callback bodies: an ok.h device is a function from (RAM, ROM) to (result byte, new RAM). An okvm.h device is a function from (RAM, op) to its result byte. The whole-VM access an okvm.h callback has is not modelled.
- The drivers (src/okmin.c, examples/okmin.c) and the test programs: argument parsing, printing and exit codes.
- src/okvm.h and src/okstack.h are declarations only and are not part of this model.
- Popping an empty stack reads index -1 in C. The model reads slot 255, the slot the wrapped pointer names.
- Out-of-range RAM and ROM indexing (`ram[addr + i]` past 2^24, `rom[pc]` past the image) is undefined in C. The model excludes it with preconditions (`AddressDefined`, `LitDefined`, `TickDefined`).
- `pc` is a `size_t` in C and an unbounded `nat` here; its wrap past `SIZE_MAX` is not modelled. Where the source narrows it (sys, dbg), the narrowing is written out.
- SrcOkvmProps.MxrEffect: states the pushed xor word modulo 2^(8w). It does not separately prove that the xor of two w-byte words already fits in w bytes.
