/** The Some/None datatype used for every operation that can raise in the
    modelled code: `None` stands for the exception (a `KeyError` from a
    parameter lookup, a `TypeError` from a combiner called with the wrong
    number of distributions, or an error raised inside an expression). */
module Options {

  datatype Option<+T> = None | Some(value: T)
}
