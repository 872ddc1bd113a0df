/**
 * The text side of load and save, without the file system: load splits the
 * file's text on line feeds and removes a carriage return from each piece,
 * remembering whether it removed any; save joins the lines with CR LF or LF.
 */
module FileText {

  /** JavaScript's `s.split("\n")`: the pieces between line feeds; always at least one. */
  function SplitLines(s: string): (r: seq<string>)
    ensures |r| >= 1
    ensures forall k :: 0 <= k < |r| ==> '\n' !in r[k]
  {
    if |s| == 0 then [""]
    else if s[0] == '\n' then [""] + SplitLines(s[1..])
    else
      var t := SplitLines(s[1..]);
      [[s[0]] + t[0]] + t[1..]
  }

  /** Array.prototype.join(sep). */
  function JoinLines(ls: seq<string>, sep: string): string
  {
    if |ls| == 0 then ""
    else if |ls| == 1 then ls[0]
    else ls[0] + sep + JoinLines(ls[1..], sep)
  }

  /** The index of the first carriage return of a line that holds one. */
  function FirstCR(s: string): (k: nat)
    requires '\r' in s
    ensures k < |s| && s[k] == '\r' && '\r' !in s[..k]
  {
    if s[0] == '\r' then 0
    else
      assert '\r' in s[1..] by {
        var i :| 0 <= i < |s| && s[i] == '\r';
        assert s[1..][i - 1] == '\r';
      }
      var k := FirstCR(s[1..]);
      assert s[..k + 1] == [s[0]] + s[1..][..k];
      k + 1
  }

  /** `item.replace(new RegExp("\r"), "")`: without the g flag only the first carriage return goes. */
  function RemoveFirstCR(s: string): (r: string)
    ensures '\r' !in s ==> r == s
    ensures '\r' in s ==> |r| == |s| - 1 && r == s[..FirstCR(s)] + s[FirstCR(s) + 1..]
  {
    if |s| == 0 then s
    else if s[0] == '\r' then s[1..]
    else
      var t := s[1..];
      var rt := RemoveFirstCR(t);
      assert '\r' in s ==> '\r' in t && [s[0]] + rt == s[..FirstCR(s)] + s[FirstCR(s) + 1..] by {
        if '\r' in s {
          var i :| 0 <= i < |s| && s[i] == '\r';
          assert t[i - 1] == '\r';
          var k := FirstCR(t);
          assert FirstCR(s) == k + 1;
          assert s[..k + 1] == [s[0]] + t[..k];
          assert s[k + 2..] == t[k + 1..];
        }
      }
      [s[0]] + rt
  }

  /** What load keeps of a file's text: its lines and the CR LF flag (isDosMode). */
  datatype Loaded = Loaded(lines: seq<string>, dosMode: bool)

  /** load, lines 287-299, on the text read from the file. */
  function LoadText(data: string): (l: Loaded)
    ensures |l.lines| >= 1
  {
    var items := SplitLines(data);
    Loaded(seq(|items|, k requires 0 <= k < |items| => RemoveFirstCR(items[k])),
           exists k :: 0 <= k < |items| && '\r' in items[k])
  }

  /** The text save writes: the lines joined with CR LF in DOS mode, with LF otherwise. */
  function SaveText(l: Loaded): string
  {
    JoinLines(l.lines, if l.dosMode then "\r\n" else "\n")
  }

  /** Splitting and joining again with line feeds gives the text back. */
  lemma {:induction false} JoinSplit(s: string)
    ensures JoinLines(SplitLines(s), "\n") == s
  {
    if |s| == 0 {
    } else if s[0] == '\n' {
      JoinSplit(s[1..]);
      var t := SplitLines(s[1..]);
      assert SplitLines(s) == [""] + t;
      assert ([""] + t)[1..] == t;
      assert s == "\n" + s[1..];
    } else {
      JoinSplit(s[1..]);
      var t := SplitLines(s[1..]);
      var r := [[s[0]] + t[0]] + t[1..];
      assert SplitLines(s) == r;
      assert r[1..] == t[1..];
      if |t| == 1 {
        assert s == [s[0]] + s[1..];
      } else {
        assert JoinLines(t, "\n") == t[0] + "\n" + JoinLines(t[1..], "\n");
        assert s == [s[0]] + s[1..];
      }
    }
  }

  /** A piece without line feeds is not split. */
  lemma {:induction false} SplitSingle(a: string)
    requires '\n' !in a
    ensures SplitLines(a) == [a]
  {
    if |a| > 0 {
      SplitSingle(a[1..]);
      assert a == [a[0]] + a[1..];
    }
  }

  /** A piece followed by a line feed splits off as the first line. */
  lemma {:induction false} SplitAfter(a: string, rest: string)
    requires '\n' !in a
    ensures SplitLines(a + "\n" + rest) == [a] + SplitLines(rest)
  {
    var s := a + "\n" + rest;
    if |a| == 0 {
      assert s == "\n" + rest;
      assert s[1..] == rest;
    } else {
      assert s[0] == a[0];
      assert s[1..] == a[1..] + "\n" + rest;
      SplitAfter(a[1..], rest);
      assert [a[0]] + a[1..] == a;
    }
  }

  /** Joining lines without line feeds and splitting again gives the lines back. */
  lemma {:induction false} SplitJoin(ls: seq<string>)
    requires |ls| >= 1
    requires forall k :: 0 <= k < |ls| ==> '\n' !in ls[k]
    ensures SplitLines(JoinLines(ls, "\n")) == ls
  {
    if |ls| == 1 {
      SplitSingle(ls[0]);
    } else {
      SplitJoin(ls[1..]);
      SplitAfter(ls[0], JoinLines(ls[1..], "\n"));
      assert [ls[0]] + ls[1..] == ls;
    }
  }

  /** The lines with a carriage return appended to all but the last. */
  function WithCR(ls: seq<string>): (r: seq<string>)
    ensures |r| == |ls|
    ensures forall k :: 0 <= k < |ls| - 1 ==> r[k] == ls[k] + "\r"
    ensures |ls| >= 1 ==> r[|ls| - 1] == ls[|ls| - 1]
  {
    seq(|ls|, k requires 0 <= k < |ls| => if k < |ls| - 1 then ls[k] + "\r" else ls[k])
  }

  /** Joining with CR LF is joining with LF the lines that carry a trailing CR. */
  lemma {:induction false} JoinCRLF(ls: seq<string>)
    requires |ls| >= 1
    ensures JoinLines(ls, "\r\n") == JoinLines(WithCR(ls), "\n")
  {
    if |ls| > 1 {
      JoinCRLF(ls[1..]);
      assert WithCR(ls)[1..] == WithCR(ls[1..]);
      assert WithCR(ls)[0] == ls[0] + "\r";
      assert ls[0] + "\r\n" + JoinLines(ls[1..], "\r\n") == ls[0] + "\r" + "\n" + JoinLines(ls[1..], "\r\n");
    }
  }

  /** Round trip of a file without carriage returns: load keeps LF mode and save writes the same text. */
  lemma LoadSaveLF(data: string)
    requires '\r' !in data
    ensures !LoadText(data).dosMode
    ensures SaveText(LoadText(data)) == data
  {
    var items := SplitLines(data);
    NoCRInPieces(data);
    assert LoadText(data).lines == items;
    JoinSplit(data);
  }

  /** Pieces of a text without carriage returns have none either. */
  lemma {:induction false} NoCRInPieces(s: string)
    requires '\r' !in s
    ensures forall k :: 0 <= k < |SplitLines(s)| ==> '\r' !in SplitLines(s)[k]
  {
    if |s| > 0 {
      NoCRInPieces(s[1..]);
      assert '\r' !in s[1..] by {
        forall c | c in s[1..] ensures c != '\r' { assert c in s; }
      }
    }
  }

  /**
   * Round trip of a CR LF file of two or more lines none of which holds a CR or
   * LF: load gives back the lines in DOS mode, so save writes the same text.
   */
  lemma LoadSaveCRLF(ls: seq<string>)
    requires |ls| >= 2
    requires forall k :: 0 <= k < |ls| ==> '\n' !in ls[k] && '\r' !in ls[k]
    ensures LoadText(JoinLines(ls, "\r\n")) == Loaded(ls, true)
    ensures SaveText(LoadText(JoinLines(ls, "\r\n"))) == JoinLines(ls, "\r\n")
  {
    var j := JoinLines(ls, "\r\n");
    var w := WithCR(ls);
    SplitCRLF(ls);
    var lines := seq(|w|, k requires 0 <= k < |w| => RemoveFirstCR(w[k]));
    forall k | 0 <= k < |ls| - 1 ensures lines[k] == ls[k] {
      CRAtEnd(ls[k]);
    }
    assert lines == ls;
    assert '\r' in w[0] by { assert w[0][|ls[0]|] == '\r'; }
    assert LoadText(j) == Loaded(lines, true);
  }

  /** The pieces of a CR LF text are its lines with their trailing carriage returns. */
  lemma SplitCRLF(ls: seq<string>)
    requires |ls| >= 1
    requires forall k :: 0 <= k < |ls| ==> '\n' !in ls[k]
    ensures SplitLines(JoinLines(ls, "\r\n")) == WithCR(ls)
  {
    var w := WithCR(ls);
    JoinCRLF(ls);
    forall k | 0 <= k < |w| ensures '\n' !in w[k] {
      if k < |ls| - 1 {
        assert w[k] == ls[k] + "\r";
      }
    }
    SplitJoin(w);
  }

  /** The first carriage return of a line with a single trailing CR is that CR. */
  lemma CRAtEnd(a: string)
    requires '\r' !in a
    ensures RemoveFirstCR(a + "\r") == a
  {
    var s := a + "\r";
    assert s[|a|] == '\r';
    assert s[..FirstCR(s)] == a;
  }
}
