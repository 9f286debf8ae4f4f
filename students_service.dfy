/**
 * The shared roster store: an append-only list of students that every
 * component it is handed to reads through the same array object.
 */
module Students {
  import opened Wrappers
  import opened JsStrings

  datatype Student = Student(name: string, acty: string)

  /** `x?.trim()` is falsy: the argument is `null`/`undefined` (`None`) or blank. */
  predicate Missing(x: Option<string>)
    ensures Missing(x) <==> x.None? || AllWhiteSpace(x.value)
  {
    if x.Some? then TrimShape(x.value); IsBlank(x.value) else true
  }

  /** What the store keeps of a field: not blank and already trimmed. */
  predicate CleanField(s: string) {
    !IsBlank(s) && IsTrimmed(s)
  }

  predicate CleanStudent(s: Student) {
    CleanField(s.name) && CleanField(s.acty)
  }

  predicate AllClean(list: seq<Student>) {
    forall k :: 0 <= k < |list| ==> CleanStudent(list[k])
  }

  /** The list after `addStudent(stuname, activity)`: the old list is kept
      as a prefix and gains one record, the trimmed pair, exactly when
      neither argument is missing. */
  function AddTo(list: seq<Student>, stuname: Option<string>, activity: Option<string>): (r: seq<Student>)
    ensures list <= r
    ensures |r| == if Missing(stuname) || Missing(activity) then |list| else |list| + 1
    ensures |r| > |list| ==> r[|list|] == Student(Trim(stuname.value), Trim(activity.value))
  {
    if Missing(stuname) || Missing(activity) then list
    else list + [Student(Trim(stuname.value), Trim(activity.value))]
  }

  /** Every stored record is clean, whatever the caller passes. */
  lemma AddToPreservesClean(list: seq<Student>, stuname: Option<string>, activity: Option<string>)
    requires AllClean(list)
    ensures AllClean(AddTo(list, stuname, activity))
  {
    if !Missing(stuname) && !Missing(activity) {
      var s := Student(Trim(stuname.value), Trim(activity.value));
      TrimIdempotent(stuname.value);
      TrimIdempotent(activity.value);
      assert CleanStudent(s);
      var r := AddTo(list, stuname, activity);
      forall k | 0 <= k < |r| ensures CleanStudent(r[k]) {
        if k < |list| { assert r[k] == list[k]; } else { assert r[k] == s; }
      }
    }
  }

  /** Surrounding whitespace in the arguments makes no difference. */
  lemma AddToIgnoresPadding(list: seq<Student>, w1: string, n: string, w2: string, w3: string, a: string, w4: string)
    requires AllWhiteSpace(w1) && AllWhiteSpace(w2) && AllWhiteSpace(w3) && AllWhiteSpace(w4)
    ensures AddTo(list, Some(w1 + n + w2), Some(w3 + a + w4)) == AddTo(list, Some(n), Some(a))
  {
    TrimIgnoresPadding(w1, n, w2);
    TrimIgnoresPadding(w3, a, w4);
  }

  /** The JavaScript array `getAllStudents` hands out: one object whose
      contents change in place. */
  class StudentArray {
    var elems: seq<Student>

    constructor ()
      ensures elems == []
    {
      elems := [];
    }

    /** `push`. */
    method Push(s: Student)
      modifies this
      ensures elems == old(elems) + [s]
    {
      elems := elems + [s];
    }
  }

  /** `StudentsService`. */
  class StudentsService {
    /** The private `stulist`; the field is never reassigned, so every
        caller of `getAllStudents` gets this same array. */
    const stulist: StudentArray

    ghost predicate Valid()
      reads this, stulist
    {
      AllClean(stulist.elems)
    }

    /** The store starts empty. */
    constructor ()
      ensures fresh(stulist) && stulist.elems == []
      ensures Valid()
    {
      stulist := new StudentArray();
    }

    /** `addStudent`: a no-op when either argument is missing, otherwise the
        trimmed record is pushed onto the shared array. */
    method AddStudent(stuname: Option<string>, activity: Option<string>)
      modifies stulist
      ensures stulist.elems == AddTo(old(stulist.elems), stuname, activity)
      ensures old(Valid()) ==> Valid()
    {
      if Valid() {
        AddToPreservesClean(stulist.elems, stuname, activity);
      }
      if Missing(stuname) || Missing(activity) {
        return;
      }
      stulist.Push(Student(Trim(stuname.value), Trim(activity.value)));
    }

    /** `getAllStudents`: the store's own array, not a copy; nothing changes. */
    method GetAllStudents() returns (list: StudentArray)
      ensures list == stulist
    {
      list := stulist;
    }
  }

  /** Two callers of `getAllStudents` hold the same array, so each sees a
      record the other side added afterwards. */
  method SharedListScenario() returns (first: seq<Student>, second: seq<Student>)
    ensures first == second == [Student("Sam", "Chess")]
  {
    var service := new StudentsService();
    var a := service.GetAllStudents();
    var b := service.GetAllStudents();
    TrimPadded("", "Sam", " ");
    TrimPadded("", "Chess", "");
    assert "" + "Sam" + " " == "Sam ";
    assert "" + "Chess" + "" == "Chess";
    assert !Missing(Some("Sam ")) && !Missing(Some("Chess"));
    service.AddStudent(Some("Sam "), Some("Chess"));
    assert AllWhiteSpace("   ");
    TrimShape("   ");
    assert Missing(Some("   "));
    service.AddStudent(Some("Alex"), Some("   "));
    first, second := a.elems, b.elems;
  }
}
