/**
 * /sys/kernel/sysfs-attrs: three attributes, a bool, a signed int and a 1024-byte string,
 * each with its own value and mutex. show prints the value followed by a newline; store
 * parses the written bytes (a C string: sysfs terminates the buffer after the count) and
 * either assigns the value and returns the count, or returns the parser's error and leaves
 * the value alone. The mutexes are taken and released within each callback, so they are not
 * modelled; that the attributes are independent is what each store's frame says.
 */
module SysfsAttrs {
  import opened Errno
  import opened KernelLib

  /** The string attribute's array size, terminator included. */
  const StringSize: nat := 1024

  /** What bool show prints: %d of the value, then a newline. */
  function BoolText(b: bool): (s: string)
    ensures |s| == 2 && s[0] == (if b then '1' else '0') && s[1] == '\n'
  {
    FormatBool(b) + "\n"
  }

  /** What int show prints: the decimal value, then a newline. */
  function IntText(x: i32): (s: string)
    ensures 2 <= |s| <= 12 && s[|s| - 1] == '\n'
  {
    FormatIntLength(x);
    FormatInt(x) + "\n"
  }

  /** What string store keeps of the written bytes: strscpy of their C string into the array,
      the first 1023 bytes when it does not fit. */
  function Stored(data: seq<char>): (s: string)
    ensures |s| < StringSize && NUL !in s
    ensures s == CString(data) <==> |CString(data)| < StringSize
  {
    StrScpy(CString(data), StringSize).0
  }

  /** What string store returns: strscpy's result (the length copied, or -E2BIG when the
      string was cut), since `copied == bytes ? bytes : copied` is `copied` either way. */
  function StringStoreResult(data: seq<char>): (r: int)
    ensures r == |data| <==> NUL !in data && |data| < StringSize
    ensures 0 <= r < |data| <==> NUL in data && |CString(data)| < StringSize
    ensures r < 0 <==> |CString(data)| >= StringSize
    ensures r < 0 ==> r == -E2BIG
  {
    var copied := StrScpy(CString(data), StringSize).1;
    CStringLength(data);
    if copied == |data| then |data| else copied
  }

  /** A C string is all of s exactly when s holds no NUL; otherwise it is shorter. */
  lemma CStringLength(s: seq<char>)
    ensures |CString(s)| == |s| <==> NUL !in s
    ensures |CString(s)| <= |s|
  {
    var r := CString(s);
    if |r| == |s| {
      assert r == s;
    }
  }

  /** A string without NUL is its own C string. */
  lemma CStringOfPlain(s: seq<char>)
    requires NUL !in s
    ensures CString(s) == s
  {
    CStringLength(s);
  }

  /** The text of a number as int show prints it holds no NUL. */
  lemma IntTextNoNul(x: i32)
    ensures NUL !in IntText(x)
  {
    var f := FormatInt(x);
    FormatIntNoNul(x);
    assert IntText(x) == f + "\n";
    assert forall i :: 0 <= i < |f| ==> (f + "\n")[i] == f[i];
  }

  // ---------------------------------------------------------------- attributes

  class BoolAttr {
    var value: bool

    /** SYSFS_ATTRS_ATTR_BOOL_INIT. */
    constructor ()
      ensures value == false
    {
      value := false;
    }

    method Show() returns (bytes: int, out: string)
      ensures out == BoolText(value) && bytes == |out| == 2
    {
      out := BoolText(value);
      bytes := |out|;
    }

    /** kstrtobool of the written string: on failure its error and the value unchanged,
        otherwise the parsed value stored and the whole count returned. */
    method Store(data: seq<char>) returns (r: int)
      modifies this
      ensures KstrToBool(CString(data)).Err? ==> r == -EINVAL && value == old(value)
      ensures KstrToBool(CString(data)).Ok? ==> r == |data| && value == KstrToBool(CString(data)).value
    {
      var parsed := KstrToBool(CString(data));
      if parsed.Err? {
        return parsed.code;
      }
      value := parsed.value;
      r := |data|;
    }
  }

  class IntAttr {
    var value: i32

    /** SYSFS_ATTRS_ATTR_INT_INIT. */
    constructor ()
      ensures value == 0
    {
      value := 0;
    }

    method Show() returns (bytes: int, out: string)
      ensures out == IntText(value) && bytes == |out|
    {
      out := IntText(value);
      bytes := |out|;
    }

    /** kstrtoint(buf, 0, &v): on failure -EINVAL or -ERANGE and the value unchanged,
        otherwise the parsed value stored and the whole count returned. */
    method Store(data: seq<char>) returns (r: int)
      modifies this
      ensures KstrToInt(CString(data)).Err? ==>
        r == KstrToInt(CString(data)).code && r in {-EINVAL, -ERANGE} && value == old(value)
      ensures KstrToInt(CString(data)).Ok? ==> r == |data| && value == KstrToInt(CString(data)).value
    {
      var parsed := KstrToInt(CString(data));
      if parsed.Err? {
        return parsed.code;
      }
      value := parsed.value;
      r := |data|;
    }
  }

  class StringAttr {
    /** char value[1024]. */
    const value: array<char>

    /** The array is the attribute's size and always holds a terminator. */
    ghost predicate Valid()
      reads this, value
    {
      value.Length == StringSize && NUL in value[..]
    }

    /** The string the attribute holds. */
    ghost function Text(): string
      reads this, value
    {
      CString(value[..])
    }

    /** SYSFS_ATTRS_ATTR_STRING_INIT: "" in a zeroed array. */
    constructor ()
      ensures fresh(value) && Valid() && Text() == ""
    {
      value := new char[StringSize](_ => NUL);
      new;
      assert value[..][0] == NUL;
    }

    /** sysfs_emit("%s\n"): the text, then a newline (at most 1024 bytes, within a page). */
    method Show() returns (bytes: int, out: string)
      requires Valid()
      ensures out == Text() + "\n" && bytes == |out| <= StringSize
    {
      var text := CString(value[..]);
      CStringLength(value[..]);
      out := text + "\n";
      bytes := |out|;
    }

    /** strscpy(value, buf, 1024): the stored text is Stored(data), NUL-terminated at its end,
        and the rest of the array is left as it was; the result is StringStoreResult(data). */
    method Store(data: seq<char>) returns (r: int)
      requires Valid()
      modifies value
      ensures Valid() && Text() == Stored(data) && r == StringStoreResult(data)
      ensures value[..] == Overwrite(old(value[..]), 0, Stored(data) + [NUL])
    {
      var step := StrScpy(CString(data), StringSize);
      CopyTerminated(value, step.0);
      assert value[..][|step.0|] == NUL;
      r := if step.1 == |data| then |data| else step.1;
    }
  }

  /** The three attributes of the group, with their initial values. */
  class Attributes {
    const boolAttr: BoolAttr
    const intAttr: IntAttr
    const stringAttr: StringAttr

    constructor ()
      ensures fresh(boolAttr) && fresh(intAttr) && fresh(stringAttr) && fresh(stringAttr.value)
      ensures boolAttr.value == false && intAttr.value == 0
      ensures stringAttr.Valid() && stringAttr.Text() == ""
    {
      boolAttr := new BoolAttr();
      intAttr := new IntAttr();
      stringAttr := new StringAttr();
    }
  }

  // ---------------------------------------------------------------- round trips

  /** Writing back what bool show printed stores the same value. */
  lemma BoolRoundTrip(b: bool)
    ensures KstrToBool(CString(BoolText(b))) == Ok(b)
  {
    CStringLength(BoolText(b));
  }

  /** Writing back what int show printed stores the same value. */
  lemma IntRoundTrip(x: i32)
    ensures KstrToInt(CString(IntText(x))) == Ok(x)
  {
    IntTextNoNul(x);
    CStringOfPlain(IntText(x));
    KstrToIntFormat(x, "\n");
  }

  /** A write of a string without NUL that fits is kept exactly and its count returned; a
      written newline is part of the value, so `echo` makes show print it twice. */
  lemma StringRoundTrip(s: string)
    requires NUL !in s && |s| < StringSize
    ensures Stored(s) == s && StringStoreResult(s) == |s|
  {
    CStringLength(s);
  }

  /** Writing back what string show printed appends one more newline, as long as it fits. */
  lemma StringEcho(text: string)
    requires NUL !in text && |text| + 1 < StringSize
    ensures Stored(text + "\n") == text + "\n"
  {
    StringRoundTrip(text + "\n");
  }

  /** Show, then store what it printed: each attribute keeps its value. */
  method EchoBack(attrs: Attributes) returns (rb: int, ri: int)
    modifies attrs.boolAttr, attrs.intAttr
    ensures attrs.boolAttr.value == old(attrs.boolAttr.value) && rb == 2
    ensures attrs.intAttr.value == old(attrs.intAttr.value) && ri == |IntText(old(attrs.intAttr.value))|
  {
    var nb, ob := attrs.boolAttr.Show();
    BoolRoundTrip(attrs.boolAttr.value);
    CStringLength(ob);
    rb := attrs.boolAttr.Store(ob);
    var ni, oi := attrs.intAttr.Show();
    IntRoundTrip(attrs.intAttr.value);
    ri := attrs.intAttr.Store(oi);
  }
}
