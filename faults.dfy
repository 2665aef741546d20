/** The exceptions the configuration engine raises, as values. */
module Faults {
  datatype Fault =
    /** The checked `ResourceException` of the lazy loader. */
    | ResourceException(message: string)
    | IllegalArgumentException(message: string)
    | IllegalStateException(message: string)
    /** `new RuntimeException(message, cause)`. */
    | RuntimeException(message: string, cause: Fault)
    /** What `Objects.requireNonNull(x, message)` throws for a null `x`. */
    | NullPointerException(message: string)
    /**
     * The interpolation loop had not reached a fixed point within its fuel:
     * the Java method is still running at that point.
     */
    | OutOfFuel
}
