/** Trimming on bytes and trimming on characters are the same function. */
module TextForms {
  import opened Prelude
  import Utf8
  import Binding

  lemma {:induction false} EncodeConcat(a: string, b: string)
    ensures Utf8.EncodeText(a + b) == Utf8.EncodeText(a) + Utf8.EncodeText(b)
  {
    if a == "" {
      assert a + b == b;
    } else {
      EncodeConcat(a[1..], b);
      assert (a + b)[1..] == a[1..] + b;
      Associate(Utf8.EncodeChar(a[0]), Utf8.EncodeText(a[1..]), Utf8.EncodeText(b));
    }
  }

  lemma EncodeOne(ch: char)
    ensures Utf8.EncodeText([ch]) == Utf8.EncodeChar(ch)
  {
    assert Utf8.EncodeText([]) == [];
  }

  lemma EncodeSnoc(front: string, last: char)
    ensures Utf8.EncodeText(front + [last]) == Utf8.EncodeText(front) + Utf8.EncodeChar(last)
  {
    EncodeConcat(front, [last]);
    EncodeOne(last);
  }

  /** The two tables of white space name the same characters. */
  lemma LeadingAgrees(ch: char, rest: seq<byte>)
    ensures Utf8.LeadingSpace(Utf8.EncodeChar(ch) + rest)
         == if Binding.IsSpace(ch) then |Utf8.EncodeChar(ch)| else 0
  {
    var x := ch as int;
    var s := Utf8.EncodeChar(ch) + rest;
    if 0x80 <= x < 0x800 {
      assert s[0] == 0xC0 + x / 64 && s[1] == 0x80 + x % 64;
    } else if 0x800 <= x < 0x10000 {
      assert s[0] == 0xE0 + x / 4096 && s[1] == 0x80 + x / 64 % 64 && s[2] == 0x80 + x % 64;
    }
  }

  lemma TrailingAgrees(front: seq<byte>, ch: char)
    ensures Utf8.TrailingSpace(front + Utf8.EncodeChar(ch))
         == if Binding.IsSpace(ch) then |Utf8.EncodeChar(ch)| else 0
  {
    var x := ch as int;
    var s := front + Utf8.EncodeChar(ch);
    var k := |s|;
    if x < 0x80 {
      assert s[k - 1] == x;
    } else if x < 0x800 {
      assert s[k - 2] == 0xC0 + x / 64 && s[k - 1] == 0x80 + x % 64;
    } else if x < 0x10000 {
      assert s[k - 3] == 0xE0 + x / 4096 && s[k - 2] == 0x80 + x / 64 % 64 && s[k - 1] == 0x80 + x % 64;
    } else {
      assert s[k - 3] == 0x80 + x / 4096 % 64 && s[k - 2] == 0x80 + x / 64 % 64 && s[k - 1] == 0x80 + x % 64;
    }
  }

  lemma StartSpace(t: string)
    requires t != ""
    ensures Binding.IsSpace(t[0]) ==>
              Utf8.TrimStart(Utf8.EncodeText(t)) == Utf8.TrimStart(Utf8.EncodeText(t[1..]))
    ensures !Binding.IsSpace(t[0]) ==> Utf8.TrimStart(Utf8.EncodeText(t)) == Utf8.EncodeText(t)
  {
    LeadingAgrees(t[0], Utf8.EncodeText(t[1..]));
    var s, n := Utf8.EncodeText(t), |Utf8.EncodeChar(t[0])|;
    assert s[n..] == Utf8.EncodeText(t[1..]);
  }

  lemma EndSpace(front: string, last: char)
    ensures Binding.IsSpace(last) ==>
              Utf8.TrimEnd(Utf8.EncodeText(front + [last])) == Utf8.TrimEnd(Utf8.EncodeText(front))
    ensures !Binding.IsSpace(last) ==>
              Utf8.TrimEnd(Utf8.EncodeText(front + [last])) == Utf8.EncodeText(front + [last])
  {
    EncodeSnoc(front, last);
    var f, e := Utf8.EncodeText(front), Utf8.EncodeChar(last);
    TrailingAgrees(f, last);
    assert (f + e)[..|f|] == f;
  }

  /** Trimming the encoding of a text gives the encoding of the trimmed text. */
  lemma {:induction false} TrimAgrees(t: string)
    ensures Utf8.Trim(Utf8.EncodeText(t)) == Utf8.EncodeText(Binding.Trim(t))
    decreases |t|
  {
    if t != "" {
      StartSpace(t);
      if Binding.IsSpace(t[0]) {
        TrimAgrees(t[1..]);
      } else {
        var front := t[..|t| - 1];
        assert t == front + [t[|t| - 1]];
        EndSpace(front, t[|t| - 1]);
        if Binding.IsSpace(t[|t| - 1]) {
          StartSpace(front);
          TrimAgrees(front);
        }
      }
    }
  }
}
