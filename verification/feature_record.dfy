/**
 * The text written by `save_feature`, as a stream of tokens: a header line
 * `<count> TAB <descriptor size>` and then, per keypoint, its x, y, size and
 * angle and its descriptor values truncated to integers, every field
 * followed by a tab, the line ended by a newline.
 */
module FeatureRecord {
  import opened CppArith

  /** Length of a SIFT descriptor: 4 x 4 spatial cells of 8 orientation bins. */
  const DescriptorSize: nat := 128

  /** Tokens on one keypoint line: 4 + 128 fields, each with its tab, and the newline. */
  const LineLength: nat := 2 * (4 + DescriptorSize) + 1

  /** A keypoint's position, diameter and orientation (single-precision floats, read as reals). */
  datatype Keypoint = Keypoint(x: real, y: real, size: real, angle: real)

  /**
   * One item of the output text: an integer, a real printed in fixed notation
   * with six decimals (the digits themselves are not modelled), a tab or a
   * line end.
   */
  datatype Token = Int(i: int) | Fixed(v: real) | Tab | Newline

  /** One descriptor row of the right length per keypoint. */
  predicate Conforms(keypoints: seq<Keypoint>, descriptors: seq<seq<real>>) {
    && |descriptors| == |keypoints|
    && forall i :: 0 <= i < |descriptors| ==> |descriptors[i]| == DescriptorSize
  }

  /** The first line: the keypoint count and the descriptor size, one line in all. */
  function HeaderLine(count: nat): (ts: seq<Token>)
    ensures |ts| == 4 && ts[0] == Int(count) && ts[2] == Int(DescriptorSize)
    ensures forall k :: 0 <= k < |ts| ==> (ts[k].Newline? <==> k == |ts| - 1)
  {
    [Int(count), Tab, Int(DescriptorSize), Newline]
  }

  /** A keypoint's x, y, size and angle, each in fixed notation and followed by a tab. */
  function KeypointFields(kp: Keypoint): (ts: seq<Token>)
    ensures |ts| == 8
    ensures forall k :: 0 <= k < |ts| ==> (ts[k] == Tab <==> k % 2 == 1) && !ts[k].Newline?
  {
    [Fixed(kp.x), Tab, Fixed(kp.y), Tab, Fixed(kp.size), Tab, Fixed(kp.angle), Tab]
  }

  /** The first `n` values of a descriptor row, each truncated and followed by a tab. */
  function DescriptorFields(row: seq<real>, n: nat): (ts: seq<Token>)
    requires n <= |row|
    ensures |ts| == 2 * n
    ensures forall k :: 0 <= k < |ts| ==> (ts[k] == Tab <==> k % 2 == 1) && !ts[k].Newline?
  {
    if n == 0 then [] else DescriptorFields(row, n - 1) + [Int(TruncToInt(row[n - 1])), Tab]
  }

  /**
   * One keypoint line: 4 + 128 fields, each followed by a tab, and the line
   * end as its last and only newline.
   */
  function KeypointLine(kp: Keypoint, row: seq<real>): (ts: seq<Token>)
    requires |row| == DescriptorSize
    ensures |ts| == LineLength
    ensures forall k :: 0 <= k < |ts| - 1 ==> (ts[k] == Tab <==> k % 2 == 1)
    ensures forall k :: 0 <= k < |ts| ==> (ts[k].Newline? <==> k == |ts| - 1)
  {
    var fields := KeypointFields(kp);
    var values := DescriptorFields(row, DescriptorSize);
    var ts := fields + values + [Newline];
    assert forall k :: 8 <= k < |ts| - 1 ==> ts[k] == values[k - 8];
    ts
  }

  /** The lines of the first `n` keypoints. */
  function KeypointLines(keypoints: seq<Keypoint>, descriptors: seq<seq<real>>, n: nat): (ts: seq<Token>)
    requires Conforms(keypoints, descriptors) && n <= |keypoints|
    ensures |ts| == n * LineLength
  {
    if n == 0 then []
    else KeypointLines(keypoints, descriptors, n - 1) + KeypointLine(keypoints[n - 1], descriptors[n - 1])
  }

  /** The whole feature file. */
  function FeatureText(keypoints: seq<Keypoint>, descriptors: seq<seq<real>>): (ts: seq<Token>)
    requires Conforms(keypoints, descriptors)
    ensures |ts| == 4 + |keypoints| * LineLength
    ensures ts[0] == Int(|keypoints|)
  {
    HeaderLine(|keypoints|) + KeypointLines(keypoints, descriptors, |keypoints|)
  }

  /** The number of line ends in a token stream. */
  function Newlines(ts: seq<Token>): nat {
    if ts == [] then 0
    else Newlines(ts[..|ts| - 1]) + (if ts[|ts| - 1].Newline? then 1 else 0)
  }

  lemma {:induction false} NewlinesAppend(a: seq<Token>, b: seq<Token>)
    ensures Newlines(a + b) == Newlines(a) + Newlines(b)
    decreases |b|
  {
    if b == [] {
      assert a + b == a;
    } else {
      assert (a + b)[..|a + b| - 1] == a + b[..|b| - 1];
      NewlinesAppend(a, b[..|b| - 1]);
    }
  }

  lemma {:induction false} NoNewlines(ts: seq<Token>)
    requires forall i :: 0 <= i < |ts| ==> !ts[i].Newline?
    ensures Newlines(ts) == 0
  {
    if ts != [] {
      NoNewlines(ts[..|ts| - 1]);
    }
  }

  /** A stream without line ends, followed by one, holds one line end. */
  lemma NewlinesOfLine(ts: seq<Token>)
    requires forall i :: 0 <= i < |ts| ==> !ts[i].Newline?
    ensures Newlines(ts + [Newline]) == 1
  {
    assert (ts + [Newline])[..|ts|] == ts;
    NoNewlines(ts);
  }

  /** Value `j` of a descriptor row sits at position `2 j`, its tab right after. */
  lemma {:induction false} DescriptorFieldsAt(row: seq<real>, n: nat, j: nat)
    requires j < n <= |row|
    ensures DescriptorFields(row, n)[2 * j] == Int(TruncToInt(row[j]))
    ensures DescriptorFields(row, n)[2 * j + 1] == Tab
  {
    if j < n - 1 {
      DescriptorFieldsAt(row, n - 1, j);
    }
  }

  /**
   * A keypoint line holds 4 + 128 fields: the four keypoint values at even
   * positions 0..6, then the truncated descriptor values; every field is
   * followed by a tab, and the line ends with its only newline.
   */
  lemma KeypointLineLayout(kp: Keypoint, row: seq<real>, j: nat)
    requires |row| == DescriptorSize && j < 4 + DescriptorSize
    ensures var line := KeypointLine(kp, row);
      && |line| == LineLength
      && line[0] == Fixed(kp.x) && line[2] == Fixed(kp.y)
      && line[4] == Fixed(kp.size) && line[6] == Fixed(kp.angle)
      && line[2 * j + 1] == Tab
      && (j < DescriptorSize ==> line[8 + 2 * j] == Int(TruncToInt(row[j])))
      && line[LineLength - 1] == Newline
      && Newlines(line) == 1
  {
    var fields := DescriptorFields(row, DescriptorSize);
    var line := KeypointLine(kp, row);
    assert line == KeypointFields(kp) + fields + [Newline];
    if 4 <= j {
      DescriptorFieldsAt(row, DescriptorSize, j - 4);
      assert line[2 * j + 1] == fields[2 * (j - 4) + 1];
    }
    if j < DescriptorSize {
      DescriptorFieldsAt(row, DescriptorSize, j);
      assert line[8 + 2 * j] == fields[2 * j];
    }
    NewlinesOfLine(KeypointFields(kp) + fields);
  }

  /** Keypoint `i`'s line is the `i`-th block of `LineLength` tokens. */
  lemma {:induction false} KeypointLinesAt(keypoints: seq<Keypoint>, descriptors: seq<seq<real>>, n: nat, i: nat)
    requires Conforms(keypoints, descriptors) && i < n <= |keypoints|
    ensures KeypointLines(keypoints, descriptors, n)[i * LineLength .. (i + 1) * LineLength]
            == KeypointLine(keypoints[i], descriptors[i])
  {
    var prefix := KeypointLines(keypoints, descriptors, n - 1);
    assert KeypointLines(keypoints, descriptors, n) == prefix + KeypointLine(keypoints[n - 1], descriptors[n - 1]);
    if i < n - 1 {
      KeypointLinesAt(keypoints, descriptors, n - 1, i);
      assert (i + 1) * LineLength <= (n - 1) * LineLength;
    }
  }

  lemma {:induction false} KeypointLinesNewlines(keypoints: seq<Keypoint>, descriptors: seq<seq<real>>, n: nat)
    requires Conforms(keypoints, descriptors) && n <= |keypoints|
    ensures Newlines(KeypointLines(keypoints, descriptors, n)) == n
  {
    if n > 0 {
      KeypointLinesNewlines(keypoints, descriptors, n - 1);
      NewlinesAppend(KeypointLines(keypoints, descriptors, n - 1), KeypointLine(keypoints[n - 1], descriptors[n - 1]));
      KeypointLineLayout(keypoints[n - 1], descriptors[n - 1], 0);
    }
  }

  /**
   * The file is the 4-token header `count TAB 128 NEWLINE` followed by one
   * line of `LineLength` tokens per keypoint, in keypoint order.
   */
  lemma FeatureTextLayout(keypoints: seq<Keypoint>, descriptors: seq<seq<real>>)
    requires Conforms(keypoints, descriptors)
    ensures var text := FeatureText(keypoints, descriptors);
      && |text| == 4 + |keypoints| * LineLength
      && text[..4] == [Int(|keypoints|), Tab, Int(DescriptorSize), Newline]
      && forall i :: 0 <= i < |keypoints| ==>
           text[4 + i * LineLength .. 4 + (i + 1) * LineLength] == KeypointLine(keypoints[i], descriptors[i])
  {
    var text := FeatureText(keypoints, descriptors);
    var lines := KeypointLines(keypoints, descriptors, |keypoints|);
    forall i | 0 <= i < |keypoints|
      ensures text[4 + i * LineLength .. 4 + (i + 1) * LineLength] == KeypointLine(keypoints[i], descriptors[i])
    {
      KeypointLinesAt(keypoints, descriptors, |keypoints|, i);
      assert text[4 + i * LineLength .. 4 + (i + 1) * LineLength] == lines[i * LineLength .. (i + 1) * LineLength];
    }
  }

  /** The file has exactly one line more than there are keypoints. */
  lemma FeatureTextLineCount(keypoints: seq<Keypoint>, descriptors: seq<seq<real>>)
    requires Conforms(keypoints, descriptors)
    ensures Newlines(FeatureText(keypoints, descriptors)) == |keypoints| + 1
  {
    var header := HeaderLine(|keypoints|);
    NewlinesAppend(header, KeypointLines(keypoints, descriptors, |keypoints|));
    KeypointLinesNewlines(keypoints, descriptors, |keypoints|);
    assert header == header[..3] + [Newline];
    NewlinesOfLine(header[..3]);
  }
}
