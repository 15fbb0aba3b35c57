/** `stack_context`: a stack handed out by a stack allocator, described by its size and its
    end pointer (stacks grow down from `sp`). Addresses are plain integers; 0 is the null pointer. */
module StackContexts {
  datatype StackContext = StackContext(size: nat, sp: nat)

  /** A default-constructed or reset `stack_context`: null sp and size 0. */
  const EMPTY_STACK: StackContext := StackContext(0, 0)

  predicate IsNull(s: StackContext) { s.sp == 0 }

  /** The lowest address of the stack buffer. */
  function Bottom(s: StackContext): int { s.sp - s.size }
}
