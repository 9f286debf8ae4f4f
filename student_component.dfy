/**
 * The roster view: it holds the roster store it was constructed with,
 * forwards adds to it and displays the store's own array.
 */
module StudentView {
  import opened Wrappers
  import opened Students
  import JsStrings

  /** `StudentComponent`. */
  class StudentComponent {
    /** The displayed list: its own empty array until `ngOnInit`, the
        store's array from then on. */
    var stulist: StudentArray
    /** The injected store, passed explicitly. */
    const studentService: StudentsService

    constructor (studentService: StudentsService)
      ensures this.studentService == studentService
      ensures fresh(stulist) && stulist.elems == []
    {
      this.studentService := studentService;
      stulist := new StudentArray();
    }

    /** The view shows the store's list itself, not a copy of it. */
    ghost predicate Attached()
      reads this
    {
      stulist == studentService.stulist
    }

    /** `ngOnInit`: take the store's array. */
    method NgOnInit()
      modifies this
      ensures Attached()
      ensures stulist.elems == studentService.stulist.elems
    {
      stulist := studentService.GetAllStudents();
    }

    /** `addStudent`: forward both arguments as they are, then re-read the store. */
    method AddStudent(stuname: Option<string>, activity: Option<string>)
      modifies this, studentService.stulist
      ensures Attached()
      ensures stulist.elems == AddTo(old(studentService.stulist.elems), stuname, activity)
      ensures old(studentService.Valid()) ==> studentService.Valid()
    {
      studentService.AddStudent(stuname, activity);
      stulist := studentService.GetAllStudents();
    }
  }

  /** An add made through any view of a store is visible, without a refresh,
      in every other attached view of the same store. */
  method AddThroughOther(view: StudentComponent, other: StudentComponent,
                         stuname: Option<string>, activity: Option<string>)
    requires view.Attached()
    requires other.studentService == view.studentService
    modifies other, other.studentService.stulist
    ensures view.Attached()
    ensures view.stulist.elems == AddTo(old(view.stulist.elems), stuname, activity)
  {
    other.AddStudent(stuname, activity);
  }

  /** Two views of one store and a third that never ran `ngOnInit`: an add
      through the first shows in the second, not in the third. */
  method TwoViewsScenario() returns (seenByB: seq<Student>, seenByC: seq<Student>)
    ensures seenByB == [Student("Sam", "Chess")]
    ensures seenByC == []
  {
    var service := new StudentsService();
    var viewA := new StudentComponent(service);
    var viewB := new StudentComponent(service);
    var viewC := new StudentComponent(service);
    viewA.NgOnInit();
    viewB.NgOnInit();
    JsStrings.TrimPadded("", "Sam", "");
    JsStrings.TrimPadded("", "Chess", "");
    assert "" + "Sam" + "" == "Sam";
    assert "" + "Chess" + "" == "Chess";
    viewA.AddStudent(Some("Sam"), Some("Chess"));
    seenByB, seenByC := viewB.stulist.elems, viewC.stulist.elems;
  }
}
