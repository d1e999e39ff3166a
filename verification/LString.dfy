/** The growable byte string of the configuration library (struct lcfg_string). */
module LStrings {
  import opened Text

  class LString {
    var str: array<char>
    var size: nat
    var capacity: nat

    /** One byte more than the text is always allocated, so that a terminator fits. */
    ghost predicate Valid()
      reads this
    {
      capacity == str.Length && size < capacity
    }

    ghost function Content(): (s: string)
      requires Valid()
      reads this, str
    {
      str[..size]
    }

    constructor ()
      ensures Valid() && fresh(str) && Content() == [] && capacity == 8
    {
      str := new char[8];
      size := 0;
      capacity := 8;
    }

    /** lcfg_string_grow: make sure newSize bytes and a terminator fit. */
    method Grow(newSize: nat)
      requires Valid()
      modifies this`str, this`capacity
      ensures Valid() && newSize < capacity
      ensures str == old(str) || fresh(str)
      ensures Content() == old(Content())
      ensures capacity >= old(capacity)
      ensures old(newSize < capacity) ==> str == old(str)
    {
      while newSize + 1 > capacity
        invariant Valid() && capacity >= old(capacity)
        invariant str == old(str) || fresh(str)
        invariant Content() == old(Content())
        invariant old(newSize < capacity) ==> str == old(str)
        decreases newSize - capacity
      {
        var bigger := new char[capacity * 2];
        forall k | 0 <= k < size {
          bigger[k] := str[k];
        }
        assert bigger[..size] == str[..size];
        str := bigger;
        capacity := capacity * 2;
      }
    }

    method CatChar(c: char)
      requires Valid()
      modifies this, str
      ensures Valid() && (str == old(str) || fresh(str))
      ensures Content() == old(Content()) + [c]
    {
      Grow(size + 1);
      str[size] := c;
      size := size + 1;
    }

    method CatStr(s: string)
      requires Valid()
      modifies this, str
      ensures Valid() && (str == old(str) || fresh(str))
      ensures Content() == old(Content()) + s
    {
      Grow(size + |s|);
      ghost var before := Content();
      forall k | 0 <= k < |s| {
        str[size + k] := s[k];
      }
      assert str[size..size + |s|] == s;
      assert str[..size] == before;
      assert str[..size + |s|] == before + str[size..size + |s|];
      size := size + |s|;
    }

    /** lcfg_string_cat_uint. The write index is an unsigned sum that wraps, so with one digit
        too few reserved the last write lands on the byte before the end. On an empty string its
        index is 2^32 - 1, outside of every buffer: stray reports that write. */
    method CatUInt(value: nat) returns (stray: bool)
      requires Valid()
      modifies this, str
      ensures Valid() && (str == old(str) || fresh(str))
      ensures stray <==> old(Content()) == [] && LeadingTen(value)
      ensures Content() == CatUint(old(Content()), value)
      ensures Appended(old(Content()), value, Content())
    {
      hide Appended, DecimalOf, Number;
      var needed := 1;
      var rest := value;
      while rest > 10
        invariant needed - 1 + CountAsWritten(rest) == CountAsWritten(value)
      {
        needed := needed + 1;
        rest := rest / 10;
      }
      CountIsDigits(value);
      CatUintAppends(Content(), value);

      Grow(size + needed);

      stray := WriteDigits(value, needed, size + needed - |Digits(value)|);
      ghost var s, d := old(Content()), Digits(value);
      size := size + needed;
      if !LeadingTen(value) {
        assert Content() == s + d;
      } else if s == [] {
        assert Content() == d[1..];
      } else {
        assert Content() == s[..|s| - 1] + d;
      }
    }

    /** The digit loop: it writes backwards from size + needed - 1, so that the digits end
        there however many they are. A position of -1 stands for the unsigned 2^32 - 1. */
    method WriteDigits(value: nat, needed: nat, ghost first: int) returns (stray: bool)
      requires Valid() && size + needed < capacity
      requires first == size + needed - |Digits(value)|
      modifies str
      ensures stray <==> first < 0
      ensures forall k :: 0 <= k < |Digits(value)| && 0 <= first + k ==> str[first + k] == Digits(value)[k]
      ensures forall k :: 0 <= k < first && k < size ==> str[k] == old(str[k])
    {
      var at := size + needed - 1;
      var i := value;
      var more := true;
      stray := false;
      ghost var digits := Digits(value);
      while more
        invariant first - 1 <= at < size + needed
        invariant more <==> at >= first
        invariant stray <==> at < -1
        invariant more ==> Digits(i) == digits[..at - first + 1]
        invariant forall k :: at < first + k < size + needed && 0 <= first + k ==> str[first + k] == digits[k]
        invariant forall k :: 0 <= k < first && k < size ==> str[k] == old(str[k])
        decreases at - first
      {
        DigitsLast(i);
        if at >= 0 {
          str[at] := DigitChar(i % 10);
        } else {
          stray := true;
        }
        assert digits[at - first] == DigitChar(i % 10);
        at := at - 1;
        more := i / 10 != 0;
        i := i / 10;
      }
    }

    /** lcfg_string_rfind. */
    method RFindChar(c: char) returns (r: int)
      requires Valid()
      ensures r == RFind(Content(), c)
    {
      r := size - 1;
      while r >= 0
        invariant -1 <= r < size
        invariant forall k :: r < k < size ==> str[k] != c
      {
        if str[r] == c {
          break;
        }
        r := r - 1;
      }
      RFindIs(Content(), c, r);
    }

    method Trunc(maxSize: nat)
      requires Valid()
      modifies this`size
      ensures Valid()
      ensures Content() == if maxSize < old(size) then old(Content())[..maxSize] else old(Content())
    {
      if maxSize < size {
        size := maxSize;
      }
    }

    /** The bytes, as lcfg_string_new_copy and lcfg_string_cstr hand them out. */
    method Copy() returns (s: string)
      requires Valid()
      ensures s == Content()
    {
      s := str[..size];
    }

    // The path macros of the parser.

    method PushDot()
      requires Valid()
      modifies this, str
      ensures Valid() && (str == old(str) || fresh(str))
      ensures Content() == WithDot(old(Content()))
    {
      if size != 0 {
        CatChar('.');
      }
    }

    method PushKey(key: string)
      requires Valid()
      modifies this, str
      ensures Valid() && (str == old(str) || fresh(str))
      ensures Content() == PushStr(old(Content()), key)
    {
      PushDot();
      CatStr(key);
    }

    method PushIndex(i: nat) returns (stray: bool)
      requires Valid()
      modifies this, str
      ensures Valid() && (str == old(str) || fresh(str))
      ensures stray <==> old(Content()) == [] && LeadingTen(i)
      ensures Content() == PushInt(old(Content()), i)
    {
      PushDot();
      stray := CatUInt(i);
    }

    method PopLast()
      requires Valid()
      modifies this`size
      ensures Valid()
      ensures Content() == Pop(old(Content()))
    {
      var d := RFindChar('.');
      if d != -1 {
        Trunc(d);
      } else {
        Trunc(0);
      }
    }
  }
}
