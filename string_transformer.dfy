/** The driver of every string transformer: it reads a document's characters one at a time into
    a buffer and hands the buffer to the transformer's in-place rewrite either in memory-bounded
    partial chunks or, at the end of input, all that is left. */
module StringTransformer {
  import opened Wrappers

  /** `READ_CHUNK_SIZE`: 100 KiB, counted in bytes at two bytes per character. */
  const READ_CHUNK_SIZE: nat := 102400

  /** The buffer length, in characters, at which the memory check comes round: half of
      `READ_CHUNK_SIZE`. */
  const CHECK_INTERVAL: nat := 51200

  /** A `StringBuilder`: a character buffer rewritten in place. */
  class StringBuilder {
    var chars: seq<char>

    /** `new StringBuilder(int capacity)`: an empty buffer. The capacity only reserves room;
        it bounds none of the content. */
    constructor (capacity: nat)
      ensures chars == []
    {
      chars := [];
    }

    /** `append(char)`. */
    method Append(c: char)
      modifies this
      ensures chars == old(chars) + [c]
    {
      chars := chars + [c];
    }

    /** `setLength(newLength)`: cuts the buffer to `newLength`, or pads it with NUL characters. */
    method SetLength(newLength: nat)
      modifies this
      ensures newLength <= |old(chars)| ==> chars == old(chars)[..newLength]
      ensures newLength > |old(chars)| ==> chars == old(chars) + seq(newLength - |old(chars)|, _ => '\0')
    {
      if newLength <= |chars| {
        chars := chars[..newLength];
      } else {
        chars := chars + seq(newLength - |chars|, _ => '\0');
      }
    }

    /** `delete(start, end)`: removes `chars[start..end]`, an `end` past the length meaning the
        length; a `start` past `end` or past the length is an error in Java. */
    method Delete(start: nat, end: nat)
      requires start <= end && start <= |chars|
      modifies this
      ensures chars == old(chars[..start]) + old(chars[if end < |chars| then end else |chars|..])
    {
      var stop := if end < |chars| then end else |chars|;
      chars := chars[..start] + chars[stop..];
    }
  }

  /** `BufferUtil.flushBuffer(b, output, ...)`: writes the buffer to the output and empties it. */
  method FlushBuffer(b: StringBuilder, output: seq<char>) returns (written: seq<char>)
    modifies b
    ensures written == output + old(b.chars) && b.chars == []
  {
    written := output + b.chars;
    b.SetLength(0);
  }

  /** One call of `transformStringContent`: the buffered characters and its `partialContent` flag. */
  datatype Chunk = Chunk(content: seq<char>, partial: bool)

  /** `MemoryUtil.getFreeMemory()`, in bytes, as reported when `n` characters have been read. */
  type FreeMemory = nat -> nat

  /** A transformer's `transformStringContent`: the new buffer made from the buffer and its flag. */
  type Transform = (seq<char>, bool) -> seq<char>

  /** The Java narrowing of a `long` to an `int`: keep the low 32 bits, two's complement. */
  function ToInt(x: int): (r: int)
    ensures -0x8000_0000 <= r < 0x8000_0000
    ensures (r - x) % 0x1_0000_0000 == 0
  {
    var low := x % 0x1_0000_0000;
    if low < 0x8000_0000 then low else low - 0x1_0000_0000
  }

  /** Java's `int` division, which truncates toward zero. */
  function JavaDiv(a: int, b: int): int
    requires b > 0
  {
    if a >= 0 then a / b else -((-a) / b)
  }

  /** `isTakingTooMuchMemory` as written: `(int) getFreeMemory() / 2`, where the narrowing cast
      applies to the free memory before the division. */
  predicate IsTakingTooMuchMemoryAsWritten(length: nat, freeMemory: nat) {
    length * 2 > JavaDiv(ToInt(freeMemory), 2)
  }

  /** `isTakingTooMuchMemory` as intended: the buffer, at two bytes per character, takes more
      than half the free memory. */
  predicate IsTakingTooMuchMemory(length: nat, freeMemory: nat) {
    length * 2 > freeMemory / 2
  }

  /** Below 2 GiB of free memory the cast is harmless and the two checks agree. */
  lemma AsWrittenAgreesBelowTwoGiB(length: nat, freeMemory: nat)
    requires freeMemory < 0x8000_0000
    ensures IsTakingTooMuchMemoryAsWritten(length, freeMemory) == IsTakingTooMuchMemory(length, freeMemory)
  {
  }

  /** With 2 GiB or 4 GiB free, the check as written reports a first 51200-character buffer
      (100 KiB) as too big, although it takes far less than half the free memory. */
  lemma AsWrittenSplitsWithAmpleMemory()
    ensures IsTakingTooMuchMemoryAsWritten(CHECK_INTERVAL, 0x8000_0000)
    ensures IsTakingTooMuchMemoryAsWritten(CHECK_INTERVAL, 0x1_0000_0000)
    ensures !IsTakingTooMuchMemory(CHECK_INTERVAL, 0x8000_0000)
    ensures !IsTakingTooMuchMemory(CHECK_INTERVAL, 0x1_0000_0000)
  {
    assert ToInt(0x8000_0000) == -0x8000_0000;
    assert ToInt(0x1_0000_0000) == 0;
  }

  /** The largest Java `int`. */
  const INT_MAX: nat := 0x7FFF_FFFF

  /** The initial capacity of the driver's buffer as written, `(int) (getFreeMemory() / 4)`:
      a quarter of the free memory, narrowed to an `int`. */
  function InitialCapacityAsWritten(freeMemory: nat): int {
    ToInt(freeMemory / 4)
  }

  /** With 8 GiB free the capacity as written is negative, which `new StringBuilder(int)`
      rejects with a `NegativeArraySizeException`; with 16 GiB it is 0. */
  lemma AsWrittenCapacityNegativeWithEightGiB()
    ensures InitialCapacityAsWritten(0x2_0000_0000) < 0
    ensures InitialCapacityAsWritten(0x4_0000_0000) == 0
  {
    assert ToInt(0x8000_0000) == -0x8000_0000;
    assert ToInt(0x1_0000_0000) == 0;
  }

  /** The initial capacity as intended: a quarter of the free memory (half of it at two bytes
      per character), capped below the largest array length the VM allows. The cap is taken here to
      be the largest `int`; a VM's own array limit may lie a few elements below it. */
  function InitialCapacity(freeMemory: nat): (capacity: nat)
    ensures capacity <= INT_MAX && capacity <= freeMemory / 4
    ensures capacity == freeMemory / 4 || capacity == INT_MAX
  {
    if freeMemory / 4 <= INT_MAX then freeMemory / 4 else INT_MAX
  }

  /** Below 8 GiB of free memory the cast is harmless and the two capacities agree. */
  lemma AsWrittenCapacityAgreesBelowEightGiB(freeMemory: nat)
    requires freeMemory < 0x2_0000_0000
    ensures InitialCapacityAsWritten(freeMemory) == InitialCapacity(freeMemory)
  {
  }

  /** Which memory check a driver makes: the one `isTakingTooMuchMemory` makes as written, or the
      intended one. */
  datatype Check = AsWritten | Intended

  /** Whether the memory check `check` finds a buffer of `length` characters too big. */
  predicate TooBig(check: Check, length: nat, freeMemory: nat) {
    match check
    case AsWritten => IsTakingTooMuchMemoryAsWritten(length, freeMemory)
    case Intended => IsTakingTooMuchMemory(length, freeMemory)
  }

  /** Whether a buffer of `length` characters is due for the memory check:
      `length * 2 % READ_CHUNK_SIZE == 0`. */
  predicate AtCheck(length: nat) {
    length * 2 % READ_CHUNK_SIZE == 0
  }

  /** The calls the driver making the memory check `check` makes once `pos` characters of
      `input` are read and `buffer` holds what was read since the last flush. */
  function Run(input: seq<char>, pos: nat, buffer: seq<char>, freeMemory: FreeMemory, check: Check): seq<Chunk>
    requires pos <= |input|
    decreases |input| - pos
  {
    if pos == |input| then
      if |buffer| > 0 then [Chunk(buffer, false)] else []
    else
      var b := buffer + [input[pos]];
      if AtCheck(|b|) && TooBig(check, |b|, freeMemory(pos + 1)) then
        [Chunk(b, true)] + Run(input, pos + 1, [], freeMemory, check)
      else
        Run(input, pos + 1, b, freeMemory, check)
  }

  /** The calls the driver making the memory check `check` makes on a whole document. */
  function ChunksWith(input: seq<char>, freeMemory: FreeMemory, check: Check): seq<Chunk> {
    Run(input, 0, [], freeMemory, check)
  }

  /** The calls the corrected driver makes on a whole document. */
  function Chunks(input: seq<char>, freeMemory: FreeMemory): seq<Chunk> {
    ChunksWith(input, freeMemory, Intended)
  }

  /** The calls the driver as written makes on a whole document, or `None` when the initial
      capacity as written is negative and `new StringBuilder` throws before anything is read. */
  function ChunksAsWritten(input: seq<char>, freeMemory: FreeMemory): Option<seq<Chunk>> {
    if InitialCapacityAsWritten(freeMemory(0)) < 0 then None else Some(ChunksWith(input, freeMemory, AsWritten))
  }

  /** The characters handed to the calls, in call order. */
  function Flatten(chunks: seq<Chunk>): seq<char> {
    if |chunks| == 0 then [] else chunks[0].content + Flatten(chunks[1..])
  }

  /** What the driver writes: each call's rewritten buffer, in call order. */
  function Written(chunks: seq<Chunk>, transform: Transform): seq<char> {
    if |chunks| == 0 then [] else transform(chunks[0].content, chunks[0].partial) + Written(chunks[1..], transform)
  }

  lemma {:induction false} WrittenAppend(chunks: seq<Chunk>, c: Chunk, transform: Transform)
    ensures Written(chunks + [c], transform) == Written(chunks, transform) + transform(c.content, c.partial)
  {
    if |chunks| == 0 {
      assert chunks + [c] == [c];
    } else {
      assert (chunks + [c])[1..] == chunks[1..] + [c];
      WrittenAppend(chunks[1..], c, transform);
    }
  }

  lemma {:induction false} FlattenAppend(xs: seq<Chunk>, ys: seq<Chunk>)
    ensures Flatten(xs + ys) == Flatten(xs) + Flatten(ys)
  {
    if |xs| == 0 {
      assert xs + ys == ys;
    } else {
      assert (xs + ys)[1..] == xs[1..] + ys;
      FlattenAppend(xs[1..], ys);
    }
  }

  /** One more call made by the driver: it joins the calls made so far, and its rewritten
      buffer follows what was written so far. */
  lemma CallMade(calls: seq<Chunk>, c: Chunk, rest: seq<Chunk>, transform: Transform)
    ensures calls + ([c] + rest) == (calls + [c]) + rest
    ensures Written(calls + [c], transform) == Written(calls, transform) + transform(c.content, c.partial)
  {
    WrittenAppend(calls, c, transform);
  }

  /** `transformTextDocument`: reads `input`, calling `transform` on the buffer with
      `partialContent` set whenever a memory check finds the buffer too big, and once more
      without it for what is left at the end of input; each rewritten buffer is flushed to the
      output, which is returned. */
  method TransformTextDocument(input: seq<char>, freeMemory: FreeMemory, transform: Transform)
    returns (output: seq<char>)
    ensures output == Written(Chunks(input, freeMemory), transform)
  {
    var b := new StringBuilder(InitialCapacity(freeMemory(0)));
    var i := 0;
    output := [];
    ghost var calls: seq<Chunk> := [];
    while i < |input|
      invariant i <= |input|
      invariant Chunks(input, freeMemory) == calls + Run(input, i, b.chars, freeMemory, Intended)
      invariant output == Written(calls, transform)
    {
      ghost var before := b.chars;
      b.Append(input[i]);
      i := i + 1;
      if AtCheck(|b.chars|) && IsTakingTooMuchMemory(|b.chars|, freeMemory(i)) {
        var chunk := Chunk(b.chars, true);
        assert Run(input, i - 1, before, freeMemory, Intended) == [chunk] + Run(input, i, [], freeMemory, Intended);
        CallMade(calls, chunk, Run(input, i, [], freeMemory, Intended), transform);
        calls := calls + [chunk];
        // `transformStringContent` rewrites the buffer in place.
        b.chars := transform(b.chars, true);
        output := FlushBuffer(b, output);
      } else {
        assert Run(input, i - 1, before, freeMemory, Intended) == Run(input, i, b.chars, freeMemory, Intended);
      }
    }
    assert calls + [] == calls;
    if |b.chars| > 0 {
      WrittenAppend(calls, Chunk(b.chars, false), transform);
      calls := calls + [Chunk(b.chars, false)];
      b.chars := transform(b.chars, false);
      output := FlushBuffer(b, output);
    }
    b.SetLength(0);
  }

  lemma {:induction false} RunFlatten(input: seq<char>, pos: nat, buffer: seq<char>, freeMemory: FreeMemory, check: Check)
    requires pos <= |input|
    ensures Flatten(Run(input, pos, buffer, freeMemory, check)) == buffer + input[pos..]
    decreases |input| - pos
  {
    if pos < |input| {
      var b := buffer + [input[pos]];
      assert b + input[pos + 1..] == buffer + input[pos..];
      RunFlatten(input, pos + 1, if AtCheck(|b|) && TooBig(check, |b|, freeMemory(pos + 1)) then [] else b, freeMemory, check);
    }
  }

  /** The chunks handed to the transform are the document cut into pieces: together, in order,
      they are exactly the input, with nothing lost, repeated or reordered at a boundary. This
      holds for either memory check. */
  lemma ChunksConcatenateToInput(input: seq<char>, freeMemory: FreeMemory, check: Check)
    ensures Flatten(ChunksWith(input, freeMemory, check)) == input
  {
    RunFlatten(input, 0, [], freeMemory, check);
  }

  lemma {:induction false} WrittenIdentity(chunks: seq<Chunk>, transform: Transform)
    requires forall s, partial :: transform(s, partial) == s
    ensures Written(chunks, transform) == Flatten(chunks)
  {
    if |chunks| > 0 {
      WrittenIdentity(chunks[1..], transform);
    }
  }

  /** A transform that leaves the buffer as it is makes the driver copy the document exactly,
      however many chunks the free memory forces, with either memory check. */
  lemma IdentityRoundTrip(input: seq<char>, freeMemory: FreeMemory, check: Check, transform: Transform)
    requires forall s, partial :: transform(s, partial) == s
    ensures Written(ChunksWith(input, freeMemory, check), transform) == input
  {
    WrittenIdentity(ChunksWith(input, freeMemory, check), transform);
    ChunksConcatenateToInput(input, freeMemory, check);
  }

  /** An empty document makes no call and writes nothing. */
  lemma EmptyInputNoCall(freeMemory: FreeMemory, check: Check, transform: Transform)
    ensures ChunksWith([], freeMemory, check) == []
    ensures Written(ChunksWith([], freeMemory, check), transform) == []
  {
  }

  /** The shape of the calls: every buffer handed over is non-empty; every partial one is a
      whole number of check intervals (51200 characters) long; and a call without
      `partialContent` can only be the last one. */
  predicate WellShaped(chunks: seq<Chunk>) {
    && (forall k :: 0 <= k < |chunks| ==> |chunks[k].content| > 0)
    && (forall k :: 0 <= k < |chunks| && chunks[k].partial ==> |chunks[k].content| % CHECK_INTERVAL == 0)
    && (forall k :: 0 <= k < |chunks| && !chunks[k].partial ==> k == |chunks| - 1)
  }

  lemma {:induction false} RunWellShaped(input: seq<char>, pos: nat, buffer: seq<char>, freeMemory: FreeMemory, check: Check)
    requires pos <= |input|
    ensures WellShaped(Run(input, pos, buffer, freeMemory, check))
    decreases |input| - pos
  {
    if pos < |input| {
      var b := buffer + [input[pos]];
      if AtCheck(|b|) && TooBig(check, |b|, freeMemory(pos + 1)) {
        RunWellShaped(input, pos + 1, [], freeMemory, check);
        var rest := Run(input, pos + 1, [], freeMemory, check);
        var all := [Chunk(b, true)] + rest;
        forall k | 0 <= k < |all|
          ensures |all[k].content| > 0
          ensures all[k].partial ==> |all[k].content| % CHECK_INTERVAL == 0
          ensures !all[k].partial ==> k == |all| - 1
        {
          if k > 0 {
            assert all[k] == rest[k - 1];
          }
        }
      } else {
        RunWellShaped(input, pos + 1, b, freeMemory, check);
      }
    }
  }

  /** Every call of a document has the shape `WellShaped` describes, with either memory check. */
  lemma ChunksWellShaped(input: seq<char>, freeMemory: FreeMemory, check: Check)
    ensures WellShaped(ChunksWith(input, freeMemory, check))
  {
    RunWellShaped(input, 0, [], freeMemory, check);
  }

  /** Every partial call in `chunks` was preceded by a memory check that found its buffer too
      big, the check being made once `start` characters plus those handed over so far were read. */
  predicate ChecksHeld(chunks: seq<Chunk>, start: nat, freeMemory: FreeMemory, check: Check)
    decreases |chunks|
  {
    |chunks| == 0 ||
    ((chunks[0].partial ==> TooBig(check, |chunks[0].content|, freeMemory(start + |chunks[0].content|))) &&
     ChecksHeld(chunks[1..], start + |chunks[0].content|, freeMemory, check))
  }

  /** `ChecksHeld` read at one call: its check was made after `start` plus the characters
      handed to the calls up to and including it. */
  lemma {:induction false} ChecksHeldAt(chunks: seq<Chunk>, start: nat, freeMemory: FreeMemory, check: Check, k: nat)
    requires ChecksHeld(chunks, start, freeMemory, check) && k < |chunks| && chunks[k].partial
    ensures TooBig(check, |chunks[k].content|, freeMemory(start + |Flatten(chunks[..k + 1])|))
  {
    var prefix := chunks[..k + 1];
    assert prefix[0] == chunks[0] && prefix[1..] == chunks[1..][..k];
    assert Flatten(prefix) == chunks[0].content + Flatten(chunks[1..][..k]);
    if k > 0 {
      assert chunks[1..][k - 1] == chunks[k];
      assert chunks[1..][..k - 1 + 1] == chunks[1..][..k];
      ChecksHeldAt(chunks[1..], start + |chunks[0].content|, freeMemory, check, k - 1);
    }
  }

  lemma {:induction false} RunChecked(input: seq<char>, pos: nat, buffer: seq<char>, freeMemory: FreeMemory, check: Check)
    requires |buffer| <= pos <= |input|
    ensures ChecksHeld(Run(input, pos, buffer, freeMemory, check), pos - |buffer|, freeMemory, check)
    decreases |input| - pos
  {
    if pos < |input| {
      var b := buffer + [input[pos]];
      if AtCheck(|b|) && TooBig(check, |b|, freeMemory(pos + 1)) {
        var rest := Run(input, pos + 1, [], freeMemory, check);
        var all := [Chunk(b, true)] + rest;
        assert Run(input, pos, buffer, freeMemory, check) == all;
        RunChecked(input, pos + 1, [], freeMemory, check);
        assert all[0] == Chunk(b, true) && all[1..] == rest;
        assert pos - |buffer| + |b| == pos + 1;
      } else {
        RunChecked(input, pos + 1, b, freeMemory, check);
      }
    } else if |buffer| > 0 {
      var all := [Chunk(buffer, false)];
      assert all[1..] == [];
    }
  }

  /** A partial call is made only when the memory check, made after reading as many characters
      as the calls so far were handed, found the buffer too big. */
  lemma PartialOnlyWhenTooBig(input: seq<char>, freeMemory: FreeMemory, check: Check)
    ensures var chunks := ChunksWith(input, freeMemory, check);
            forall k :: 0 <= k < |chunks| && chunks[k].partial ==>
              TooBig(check, |chunks[k].content|, freeMemory(|Flatten(chunks[..k + 1])|))
  {
    RunChecked(input, 0, [], freeMemory, check);
    var chunks := ChunksWith(input, freeMemory, check);
    forall k | 0 <= k < |chunks| && chunks[k].partial
      ensures TooBig(check, |chunks[k].content|, freeMemory(|Flatten(chunks[..k + 1])|))
    {
      ChecksHeldAt(chunks, 0, freeMemory, check, k);
    }
  }

  /** The memory check due once a buffer started after `start` characters holds `length` of
      them, if one is due at that length, did not find it too big. */
  predicate CheckPassed(start: nat, length: nat, freeMemory: FreeMemory, check: Check) {
    length % CHECK_INTERVAL == 0 ==> !TooBig(check, length, freeMemory(start + length))
  }

  /** Every memory check due on a buffer started after `start` characters, before it reached
      `upto` characters, passed. */
  predicate PassedUpTo(start: nat, upto: nat, freeMemory: FreeMemory, check: Check) {
    forall length :: 0 < length < upto ==> CheckPassed(start, length, freeMemory, check)
  }

  /** Every memory check made on the buffer of a call in `chunks` before the buffer was handed
      over passed: for a partial call, every check before its last character; for the final
      call, every check up to and including its last character. */
  predicate ChecksPassed(chunks: seq<Chunk>, start: nat, freeMemory: FreeMemory, check: Check)
    decreases |chunks|
  {
    |chunks| == 0 ||
    (PassedUpTo(start, |chunks[0].content| + (if chunks[0].partial then 0 else 1), freeMemory, check) &&
     ChecksPassed(chunks[1..], start + |chunks[0].content|, freeMemory, check))
  }

  /** `ChecksPassed` read at one call: it started after `start` plus the characters handed to
      the calls before it. */
  lemma {:induction false} ChecksPassedAt(chunks: seq<Chunk>, start: nat, freeMemory: FreeMemory, check: Check,
                                          k: nat, length: nat)
    requires ChecksPassed(chunks, start, freeMemory, check) && k < |chunks|
    requires 0 < length < |chunks[k].content| + (if chunks[k].partial then 0 else 1)
    ensures CheckPassed(start + |Flatten(chunks[..k])|, length, freeMemory, check)
  {
    if k > 0 {
      var prefix := chunks[..k];
      assert prefix[0] == chunks[0] && prefix[1..] == chunks[1..][..k - 1];
      assert Flatten(prefix) == chunks[0].content + Flatten(chunks[1..][..k - 1]);
      assert chunks[1..][k - 1] == chunks[k];
      ChecksPassedAt(chunks[1..], start + |chunks[0].content|, freeMemory, check, k - 1, length);
    } else {
      assert chunks[..k] == [];
    }
  }

  lemma {:induction false} RunPassed(input: seq<char>, pos: nat, buffer: seq<char>, freeMemory: FreeMemory, check: Check)
    requires |buffer| <= pos <= |input|
    requires PassedUpTo(pos - |buffer|, |buffer| + 1, freeMemory, check)
    ensures ChecksPassed(Run(input, pos, buffer, freeMemory, check), pos - |buffer|, freeMemory, check)
    decreases |input| - pos
  {
    var start := pos - |buffer|;
    if pos < |input| {
      var b := buffer + [input[pos]];
      if AtCheck(|b|) && TooBig(check, |b|, freeMemory(pos + 1)) {
        var rest := Run(input, pos + 1, [], freeMemory, check);
        var all := [Chunk(b, true)] + rest;
        assert Run(input, pos, buffer, freeMemory, check) == all;
        RunPassed(input, pos + 1, [], freeMemory, check);
        assert all[0] == Chunk(b, true) && all[1..] == rest;
        assert start + |b| == pos + 1;
      } else {
        forall length | 0 < length < |b| + 1
          ensures CheckPassed(start, length, freeMemory, check)
        {
          if length == |b| {
            AtCheckIff(|b|);
            assert start + length == pos + 1;
          }
        }
        RunPassed(input, pos + 1, b, freeMemory, check);
      }
    } else if |buffer| > 0 {
      var all := [Chunk(buffer, false)];
      assert all[1..] == [];
    }
  }

  /** The converse of `PartialOnlyWhenTooBig`: whenever a memory check finds the buffer too big,
      the buffer is handed over with `partialContent` set. Every check made on a call's buffer
      before its last character passed, and so did the check on the final call's last
      character; a check is made after every 51200 characters of the buffer. */
  lemma SplitWheneverTooBig(input: seq<char>, freeMemory: FreeMemory, check: Check)
    ensures var chunks := ChunksWith(input, freeMemory, check);
            forall k, length ::
              (0 <= k < |chunks| && 0 < length < |chunks[k].content| + (if chunks[k].partial then 0 else 1)) ==>
              CheckPassed(|Flatten(chunks[..k])|, length, freeMemory, check)
  {
    RunPassed(input, 0, [], freeMemory, check);
    var chunks := ChunksWith(input, freeMemory, check);
    forall k, length | 0 <= k < |chunks| && 0 < length < |chunks[k].content| + (if chunks[k].partial then 0 else 1)
      ensures CheckPassed(|Flatten(chunks[..k])|, length, freeMemory, check)
    {
      ChecksPassedAt(chunks, 0, freeMemory, check, k, length);
    }
  }

  lemma {:induction false} RunWhole(input: seq<char>, pos: nat, buffer: seq<char>, freeMemory: FreeMemory, bound: nat)
    requires pos <= |input| && |buffer| + |input| - pos <= bound
    requires forall n :: 4 * bound <= freeMemory(n)
    ensures Run(input, pos, buffer, freeMemory, Intended) ==
            if |buffer + input[pos..]| > 0 then [Chunk(buffer + input[pos..], false)] else []
    decreases |input| - pos
  {
    if pos == |input| {
      assert buffer + input[pos..] == buffer;
    } else {
      var b := buffer + [input[pos]];
      assert b + input[pos + 1..] == buffer + input[pos..];
      assert 2 * |b| <= 2 * bound <= freeMemory(pos + 1) / 2;
      assert !IsTakingTooMuchMemory(|b|, freeMemory(pos + 1));
      RunWhole(input, pos + 1, b, freeMemory, bound);
    }
  }

  /** With free memory at least four bytes per character of the document at every check, the
      whole document goes to the transform in one final call. */
  lemma AmpleMemoryOneCall(input: seq<char>, freeMemory: FreeMemory)
    requires |input| > 0
    requires forall n :: 4 * |input| <= freeMemory(n)
    ensures Chunks(input, freeMemory) == [Chunk(input, false)]
  {
    RunWhole(input, 0, [], freeMemory, |input|);
    assert [] + input[0..] == input;
  }

  /** The memory check falls due at the same reads for two buffers of the same residue. */
  lemma AtCheckIff(length: nat)
    ensures AtCheck(length) <==> length % CHECK_INTERVAL == 0
  {
    var q, r := length / CHECK_INTERVAL, length % CHECK_INTERVAL;
    assert length * 2 == READ_CHUNK_SIZE * q + 2 * r;
    assert 0 <= 2 * r < READ_CHUNK_SIZE;
    assert (length * 2) % READ_CHUNK_SIZE == 2 * r;
  }

  /** The check is monotone: a longer buffer with less free memory is too big whenever a shorter
      one with more free memory is. */
  lemma TooBigMonotone(short: nat, long: nat, less: nat, more: nat)
    requires short <= long && less <= more
    requires IsTakingTooMuchMemory(short, more)
    ensures IsTakingTooMuchMemory(long, less)
  {
    assert less / 2 <= more / 2;
  }

  lemma NextResidue(a: nat, b: nat)
    requires a % CHECK_INTERVAL == b % CHECK_INTERVAL
    ensures (a + 1) % CHECK_INTERVAL == (b + 1) % CHECK_INTERVAL
  {
    var r := a % CHECK_INTERVAL;
    assert a == CHECK_INTERVAL * (a / CHECK_INTERVAL) + r;
    assert b == CHECK_INTERVAL * (b / CHECK_INTERVAL) + r;
    if r + 1 < CHECK_INTERVAL {
      assert (a + 1) % CHECK_INTERVAL == r + 1 == (b + 1) % CHECK_INTERVAL;
    } else {
      assert a + 1 == CHECK_INTERVAL * (a / CHECK_INTERVAL + 1);
      assert b + 1 == CHECK_INTERVAL * (b / CHECK_INTERVAL + 1);
    }
  }

  lemma {:induction false} RunCountMonotone(input: seq<char>, pos: nat, b1: seq<char>, b2: seq<char>,
                                            less: FreeMemory, more: FreeMemory)
    requires pos <= |input|
    requires |b1| % CHECK_INTERVAL == |b2| % CHECK_INTERVAL
    requires forall n :: less(n) <= more(n)
    ensures |b1| >= |b2| ==> |Run(input, pos, b1, less, Intended)| >= |Run(input, pos, b2, more, Intended)|
    ensures |Run(input, pos, b1, less, Intended)| + 1 >= |Run(input, pos, b2, more, Intended)|
    decreases |input| - pos
  {
    if pos < |input| {
      var c1, c2 := b1 + [input[pos]], b2 + [input[pos]];
      AtCheckIff(|c1|);
      AtCheckIff(|c2|);
      NextResidue(|b1|, |b2|);
      var split1 := AtCheck(|c1|) && IsTakingTooMuchMemory(|c1|, less(pos + 1));
      var split2 := AtCheck(|c2|) && IsTakingTooMuchMemory(|c2|, more(pos + 1));
      var next1, next2 := if split1 then [] else c1, if split2 then [] else c2;
      assert |Run(input, pos, b1, less, Intended)| == (if split1 then 1 else 0) + |Run(input, pos + 1, next1, less, Intended)|;
      assert |Run(input, pos, b2, more, Intended)| == (if split2 then 1 else 0) + |Run(input, pos + 1, next2, more, Intended)|;
      if split2 && |b1| >= |b2| {
        TooBigMonotone(|c2|, |c1|, less(pos + 1), more(pos + 1));
        assert split1;
      }
      assert |next1| % CHECK_INTERVAL == |next2| % CHECK_INTERVAL;
      RunCountMonotone(input, pos + 1, next1, next2, less, more);
    }
  }

  /** Less free memory never means fewer calls: a document run with `less` free memory at every
      check is handed to the transform at least as many times as with `more`. */
  lemma ChunkCountMonotone(input: seq<char>, less: FreeMemory, more: FreeMemory)
    requires forall n :: less(n) <= more(n)
    ensures |Chunks(input, less)| >= |Chunks(input, more)|
  {
    RunCountMonotone(input, 0, [], [], less, more);
  }

  lemma {:induction false} RunAsWrittenAgrees(input: seq<char>, pos: nat, buffer: seq<char>, freeMemory: FreeMemory)
    requires pos <= |input|
    requires forall n :: freeMemory(n) < 0x8000_0000
    ensures Run(input, pos, buffer, freeMemory, AsWritten) == Run(input, pos, buffer, freeMemory, Intended)
    decreases |input| - pos
  {
    if pos < |input| {
      var b := buffer + [input[pos]];
      AsWrittenAgreesBelowTwoGiB(|b|, freeMemory(pos + 1));
      RunAsWrittenAgrees(input, pos + 1, [], freeMemory);
      RunAsWrittenAgrees(input, pos + 1, b, freeMemory);
    }
  }

  /** Below 2 GiB of free memory at every check the driver as written makes exactly the calls of
      the corrected driver. */
  lemma AsWrittenDriverAgreesBelowTwoGiB(input: seq<char>, freeMemory: FreeMemory)
    requires forall n :: freeMemory(n) < 0x8000_0000
    ensures ChunksAsWritten(input, freeMemory) == Some(Chunks(input, freeMemory))
  {
    AsWrittenCapacityAgreesBelowEightGiB(freeMemory(0));
    RunAsWrittenAgrees(input, 0, [], freeMemory);
  }

  /** Whenever the driver as written gets past its first allocation, its calls hand the whole
      document over in order, have the shape `WellShaped` describes, and copy the document under
      a transform that leaves the buffer as it is. */
  lemma AsWrittenDriverLosesNothing(input: seq<char>, freeMemory: FreeMemory, transform: Transform)
    requires forall s, partial :: transform(s, partial) == s
    ensures ChunksAsWritten(input, freeMemory).Some? ==>
              && Flatten(ChunksAsWritten(input, freeMemory).value) == input
              && WellShaped(ChunksAsWritten(input, freeMemory).value)
              && Written(ChunksAsWritten(input, freeMemory).value, transform) == input
  {
    ChunksConcatenateToInput(input, freeMemory, AsWritten);
    ChunksWellShaped(input, freeMemory, AsWritten);
    IdentityRoundTrip(input, freeMemory, AsWritten, transform);
  }

  lemma {:induction false} RunAsWrittenSplitsAtFourGiB(input: seq<char>, pos: nat, buffer: seq<char>, freeMemory: FreeMemory)
    requires pos <= |input| && |buffer| < CHECK_INTERVAL && |buffer| + (|input| - pos) >= CHECK_INTERVAL
    requires forall n :: freeMemory(n) == 0x1_0000_0000
    ensures Run(input, pos, buffer, freeMemory, AsWritten) ==
            [Chunk(buffer + input[pos..pos + (CHECK_INTERVAL - |buffer|)], true)] +
            Run(input, pos + (CHECK_INTERVAL - |buffer|), [], freeMemory, AsWritten)
    decreases |input| - pos
  {
    var b := buffer + [input[pos]];
    AtCheckIff(|b|);
    if |b| < CHECK_INTERVAL {
      assert |b| % CHECK_INTERVAL == |b|;
      assert b + input[pos + 1..pos + 1 + (CHECK_INTERVAL - |b|)] == buffer + input[pos..pos + (CHECK_INTERVAL - |buffer|)];
      RunAsWrittenSplitsAtFourGiB(input, pos + 1, b, freeMemory);
    } else {
      AsWrittenSplitsWithAmpleMemory();
      assert input[pos..pos + 1] == [input[pos]];
    }
  }

  /** With 4 GiB free, a 51200-character document goes to the transform as written in one partial
      call, while the corrected driver makes one final call. */
  lemma AsWrittenDriverSplitsWithFourGiB(input: seq<char>, freeMemory: FreeMemory)
    requires |input| == CHECK_INTERVAL
    requires forall n :: freeMemory(n) == 0x1_0000_0000
    ensures ChunksAsWritten(input, freeMemory) == Some([Chunk(input, true)])
    ensures Chunks(input, freeMemory) == [Chunk(input, false)]
  {
    AsWrittenCapacityAgreesBelowEightGiB(freeMemory(0));
    RunAsWrittenSplitsAtFourGiB(input, 0, [], freeMemory);
    assert [] + input[0..CHECK_INTERVAL] == input;
    assert Run(input, CHECK_INTERVAL, [], freeMemory, AsWritten) == [];
    assert ChunksWith(input, freeMemory, AsWritten) == [Chunk(input, true)];
    AmpleMemoryOneCall(input, freeMemory);
  }

  /** The driver as written is not monotone in the free memory: a 51201-character document is
      handed over in one final call with 1 GiB free at every check, but in two calls with 4 GiB
      free. The corrected driver makes one call in both cases. */
  lemma AsWrittenMoreMemoryMoreCalls(input: seq<char>, less: FreeMemory, more: FreeMemory)
    requires |input| == CHECK_INTERVAL + 1
    requires forall n :: less(n) == 0x4000_0000
    requires forall n :: more(n) == 0x1_0000_0000
    ensures ChunksAsWritten(input, less) == Some([Chunk(input, false)])
    ensures ChunksAsWritten(input, more) == Some([Chunk(input[..CHECK_INTERVAL], true), Chunk(input[CHECK_INTERVAL..], false)])
    ensures Chunks(input, less) == Chunks(input, more) == [Chunk(input, false)]
  {
    AsWrittenDriverAgreesBelowTwoGiB(input, less);
    AmpleMemoryOneCall(input, less);
    AmpleMemoryOneCall(input, more);
    AsWrittenCapacityAgreesBelowEightGiB(more(0));
    RunAsWrittenSplitsAtFourGiB(input, 0, [], more);
    assert [] + input[0..CHECK_INTERVAL] == input[..CHECK_INTERVAL];
    var last := [input[CHECK_INTERVAL]];
    assert [] + last == last && !AtCheck(|last|);
    assert Run(input, CHECK_INTERVAL + 1, last, more, AsWritten) == [Chunk(last, false)];
    assert Run(input, CHECK_INTERVAL, [], more, AsWritten) == [Chunk(last, false)];
    assert last == input[CHECK_INTERVAL..];
    assert ChunksWith(input, more, AsWritten) == [Chunk(input[..CHECK_INTERVAL], true), Chunk(last, false)];
  }

  /** With 8 GiB free when the driver starts, the driver as written fails before reading. */
  lemma AsWrittenDriverFailsWithEightGiB(input: seq<char>, freeMemory: FreeMemory)
    requires freeMemory(0) == 0x2_0000_0000
    ensures ChunksAsWritten(input, freeMemory) == None
  {
    AsWrittenCapacityNegativeWithEightGiB();
  }
}
