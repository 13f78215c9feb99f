/** JavaScript values the app's data layer relies on: `null`, and the ways a
    statement of the app can leave the states this model represents. */
module JsCore {

  /** An empty slot or a value. The positions `stockForm.index`,
      `deleteStockConfirm.index` and `doDetail.index` only ever hold `null` or
      an integer the template passes, so `Null` is `null` there (and the
      `=== null` test of `saveStock` sees exactly that). The order fields
      `tanggalKirim` and `newProgress` are absent (`undefined`) until set, and
      the app reads them only through `!x` or not at all, which treats
      `undefined` and `null` alike. */
  datatype Nullable<+T> = Null | Value(value: T)

  /** Why an operation has no successor state in the model. */
  datatype Fault =
      /** `a[i]` read outside the array is `undefined`; the app then copies it
          into a draft (`{...undefined}` is `{}`) or dereferences it (a `TypeError`). */
    | UndefinedElement(index: int)
      /** `a[i] = x` with `i < 0` or `i > a.length` does not store an element:
          a negative index adds a non-element property, and a far index stores
          the value after holes a `seq` cannot represent. */
    | WriteOutsideElements(index: int)
      /** `new Date(raw).toISOString()` throws `RangeError` on an unparsable date. */
    | InvalidDate

  /** The outcome of one app operation: the next state, or the fault that stops it. */
  datatype Result<+T> = Ok(value: T) | Err(fault: Fault)
}
