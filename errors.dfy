/** The exceptions the emulator core can raise, and the two ways an
    operation reports them: a value-carrying Result and a plain Outcome.
    Each fault is named after the .NET exception the C# code throws. */
module Errors {

  datatype Fault =
    | ArgumentException            // Instruction with #parameters != 3, oversized FillMemory, Array.Copy past the end
    | ArgumentOutOfRangeException  // Span.Slice past the end of memory or of a file
    | IndexOutOfRangeException     // GP[i] with i >= 16
    | KeyNotFoundException         // opcode without an entry in the dispatch table
    | NullReferenceException       // a CPU stepped before its Bus property was set

  datatype Option<+T> = None | Some(value: T)

  datatype Result<+T> = Ok(value: T) | Err(fault: Fault)

  datatype Outcome = Pass | Fail(fault: Fault)
}
