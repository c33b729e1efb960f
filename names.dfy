/** File names: the sorted order in which recordings are read, and the
    path the report is written to. */
module Names {

  /** A loaded recording and the name of the file it came from. */
  datatype NamedArray<T> = NamedArray(name: string, data: T)

  /** Python's a <= b on strings: code point by code point, a proper prefix first. */
  predicate NameLe(a: string, b: string) {
    a == [] || (b != [] && (a[0] < b[0] || (a[0] == b[0] && NameLe(a[1..], b[1..]))))
  }

  lemma {:induction false} NameLeTotal(a: string, b: string)
    ensures NameLe(a, b) || NameLe(b, a)
  {
    if a != [] && b != [] && a[0] == b[0] {
      NameLeTotal(a[1..], b[1..]);
    }
  }

  lemma {:induction false} NameLeTransitive(a: string, b: string, c: string)
    requires NameLe(a, b) && NameLe(b, c)
    ensures NameLe(a, c)
  {
    if a != [] && a[0] == b[0] && b[0] == c[0] {
      NameLeTransitive(a[1..], b[1..], c[1..]);
    }
  }

  lemma {:induction false} NameLeAntisymmetric(a: string, b: string)
    requires NameLe(a, b) && NameLe(b, a)
    ensures a == b
  {
    if a != [] {
      NameLeAntisymmetric(a[1..], b[1..]);
      assert a == [a[0]] + a[1..] && b == [b[0]] + b[1..];
    }
  }

  ghost predicate SortedByName<T>(fs: seq<NamedArray<T>>) {
    forall i, j :: 0 <= i < j < |fs| ==> NameLe(fs[i].name, fs[j].name)
  }

  /** f placed before the first entry of `sorted` whose name is not below it. */
  function Insert<T>(f: NamedArray<T>, sorted: seq<NamedArray<T>>): (r: seq<NamedArray<T>>)
    ensures multiset(r) == multiset(sorted) + multiset{f}
  {
    if sorted == [] then [f]
    else if NameLe(f.name, sorted[0].name) then [f] + sorted
    else
      assert sorted == [sorted[0]] + sorted[1..];
      [sorted[0]] + Insert(f, sorted[1..])
  }

  /** sorted(files), ordered by name. */
  function SortByName<T>(fs: seq<NamedArray<T>>): (r: seq<NamedArray<T>>)
    ensures multiset(r) == multiset(fs)
  {
    if fs == [] then []
    else
      assert fs == [fs[0]] + fs[1..];
      Insert(fs[0], SortByName(fs[1..]))
  }

  lemma {:induction false} InsertSorted<T>(f: NamedArray<T>, sorted: seq<NamedArray<T>>)
    requires SortedByName(sorted)
    ensures SortedByName(Insert(f, sorted))
  {
    if sorted != [] {
      var head, tail := sorted[0], sorted[1..];
      if NameLe(f.name, head.name) {
        forall j | 0 <= j < |sorted| ensures NameLe(f.name, sorted[j].name) {
          if j > 0 { NameLeTransitive(f.name, head.name, sorted[j].name); }
        }
      } else {
        NameLeTotal(f.name, head.name);
        InsertSorted(f, tail);
        var rest := Insert(f, tail);
        forall j | 0 <= j < |rest| ensures NameLe(head.name, rest[j].name) {
          assert rest[j] in multiset(rest);
          if rest[j] != f {
            assert rest[j] in multiset(tail);
            var k :| 0 <= k < |tail| && tail[k] == rest[j];
            assert sorted[k + 1] == rest[j];
          }
        }
      }
    }
  }

  /** The files are read in name order, and every file exactly once. */
  lemma {:induction false} SortByNameSorted<T>(fs: seq<NamedArray<T>>)
    ensures SortedByName(SortByName(fs))
    ensures multiset(SortByName(fs)) == multiset(fs)
  {
    if fs != [] {
      SortByNameSorted(fs[1..]);
      InsertSorted(fs[0], SortByName(fs[1..]));
    }
  }

  /** posixpath.join(a, b): b itself when it is absolute, otherwise b after
      a and a separating "/" unless a is empty or already ends in one. */
  function Join(a: string, b: string): (p: string)
    ensures |p| >= |b| && p[|p| - |b|..] == b
    ensures (b == [] || b[0] != '/') ==> |p| >= |a| && p[..|a|] == a
  {
    if b != [] && b[0] == '/' then b
    else if a == [] || a[|a| - 1] == '/' then a + b
    else a + "/" + b
  }

  /** hmd_<first three letters of the measure>_<width>.csv; the width's
      text is whatever str(width) gives. */
  function FileName(measure: string, widthText: string): (f: string)
    ensures |f| == 9 + (if |measure| < 3 then |measure| else 3) + |widthText|
    ensures f[..4] == "hmd_" && f[|f| - 4..] == ".csv"
    ensures |measure| >= 3 ==> f[4..7] == measure[..3] && f[7] == '_' && f[8..|f| - 4] == widthText
    ensures |measure| < 3 ==> f[4..4 + |measure|] == measure
  {
    "hmd_" + measure[..if |measure| < 3 then |measure| else 3] + "_" + widthText + ".csv"
  }

  /** The report's path: the file name inside out_dir/cond_name. */
  function OutputPath(outDir: string, condName: string, measure: string, widthText: string): (p: string)
    ensures |p| >= |FileName(measure, widthText)|
    ensures p[|p| - |FileName(measure, widthText)|..] == FileName(measure, widthText)
    ensures |p| >= |Join(outDir, condName)| && p[..|Join(outDir, condName)|] == Join(outDir, condName)
  {
    Join(Join(outDir, condName), FileName(measure, widthText))
  }

  /** The two measures give the file names hmd_vel_<width>.csv and
      hmd_acc_<width>.csv, and no two (measure, width) settings share one. */
  lemma FileNamesDistinct(m1: string, w1: string, m2: string, w2: string)
    requires m1 == "velocity" || m1 == "acceleration"
    requires m2 == "velocity" || m2 == "acceleration"
    ensures FileName("velocity", w1) == "hmd_vel_" + w1 + ".csv"
    ensures FileName("acceleration", w1) == "hmd_acc_" + w1 + ".csv"
    ensures FileName(m1, w1) == FileName(m2, w2) <==> m1 == m2 && w1 == w2
  {
    assert "velocity"[..3] == "vel" && "acceleration"[..3] == "acc";
    var f1, f2 := FileName(m1, w1), FileName(m2, w2);
    if f1 == f2 {
      assert m1[..3] == f1[4..7] == m2[..3];
      assert m1 == m2 by { assert m1[0] == m1[..3][0]; assert m2[0] == m2[..3][0]; }
      assert w1 == f1[8..|f1| - 4] == w2;
    }
  }
}
