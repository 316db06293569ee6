/** The judge's token cursor: `strings.Fields` of the text, read strictly in
    order as strings, uint64 values or int64 values. */
module TokenReader {
  import opened Errors
  import opened Strings
  import opened Strconv

  /** One read from the cursor: the value, the error returned with it, and
      the cursor position afterwards. */
  datatype Read<T> = Read(value: T, err: Option<Error>, pos: nat)

  /** `GetString` on token list `slice` at cursor `pos`. */
  function StringAt(slice: seq<string>, pos: nat): (r: Read<string>)
    ensures r.err.Some? ==> IsReadError(r.err.value)
  {
    if pos < |slice| then Read(slice[pos], None, pos + 1)
    else Read("", Some(OutOfRange(|slice|)), pos)
  }

  /** `GetUint`: the cursor moves past the token even when it does not parse. */
  function UintAt(slice: seq<string>, pos: nat): (r: Read<nat>)
    ensures r.value <= MaxUint64
    ensures r.err.Some? ==> IsReadError(r.err.value)
    ensures pos < |slice| ==> r.pos == pos + 1 && (r.value, r.err) == ParseUint(slice[pos])
    ensures pos >= |slice| ==> r == Read(0, Some(OutOfRange(|slice|)), pos)
  {
    if pos < |slice| then
      var (v, e) := ParseUint(slice[pos]);
      Read(v, e, pos + 1)
    else Read(0, Some(OutOfRange(|slice|)), pos)
  }

  /** `GetInt`: as `GetUint`, with ParseInt. */
  function IntAt(slice: seq<string>, pos: nat): (r: Read<int>)
    ensures r.err.Some? ==> IsReadError(r.err.value)
    ensures pos < |slice| ==> r.pos == pos + 1 && (r.value, r.err) == ParseInt(slice[pos])
    ensures pos >= |slice| ==> r == Read(0, Some(OutOfRange(|slice|)), pos)
  {
    if pos < |slice| then
      var (v, e) := ParseInt(slice[pos]);
      Read(v, e, pos + 1)
    else Read(0, Some(OutOfRange(|slice|)), pos)
  }

  /** Every read moves the cursor one token on while a token is left, whether
      or not that token parses; past the end it stays put and reports the
      number of tokens. */
  lemma ReaderCursor(slice: seq<string>, pos: nat)
    ensures StringAt(slice, pos).pos == UintAt(slice, pos).pos == IntAt(slice, pos).pos
                                     == if pos < |slice| then pos + 1 else pos
    ensures pos < |slice| ==> StringAt(slice, pos) == Read(slice[pos], None, pos + 1)
    ensures pos >= |slice| ==> StringAt(slice, pos).err == UintAt(slice, pos).err == IntAt(slice, pos).err
                                                            == Some(OutOfRange(|slice|))
  {
  }

  class Reader {
    var pos: nat
    const slice: seq<string>

    /** NewReader */
    constructor (s: string)
      ensures slice == Fields(s) && pos == 0
      ensures AllTokens(slice)
    {
      slice := Fields(s);
      pos := 0;
    }

    method GetInt() returns (val: int, err: Option<Error>)
      modifies this
      ensures Read(val, err, pos) == IntAt(slice, old(pos))
    {
      if pos < |slice| {
        val, err := ParseInt(slice[pos]).0, ParseInt(slice[pos]).1;
        pos := pos + 1;
        return;
      }
      val, err := 0, Some(OutOfRange(|slice|));
    }

    method GetUint() returns (val: nat, err: Option<Error>)
      modifies this
      ensures Read(val, err, pos) == UintAt(slice, old(pos))
    {
      if pos < |slice| {
        val, err := ParseUint(slice[pos]).0, ParseUint(slice[pos]).1;
        pos := pos + 1;
        return;
      }
      val, err := 0, Some(OutOfRange(|slice|));
    }

    method GetString() returns (s: string, err: Option<Error>)
      modifies this
      ensures Read(s, err, pos) == StringAt(slice, old(pos))
    {
      if pos < |slice| {
        s := slice[pos];
        pos := pos + 1;
        return s, None;
      }
      s, err := "", Some(OutOfRange(|slice|));
    }
  }
}
