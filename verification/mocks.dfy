/** The constant roster (three students, one instructor) and the three seed
    assignments the first load writes to an empty store. */
module Mocks {
  import opened Records

  const Students: seq<User> := [
    User("s1", "Alice Johnson", "alice@student.com", "student123"),
    User("s2", "Bob Smith", "bob@student.com", "student123"),
    User("s3", "Charlie Brown", "charlie@student.com", "student123")
  ]

  const AdminUser: User := User("a1", "Prof. Wilson", "admin@prof.com", "admin123")

  const InitialAssignments: seq<Assignment> := [
    Assignment("a1", "React Fundamentals Project", "Build a todo app using React hooks",
      "2025-11-05", "https://drive.google.com/example1", "a1"),
    Assignment("a2", "CSS Grid Layout Assignment", "Create a responsive portfolio layout",
      "2025-11-08", "https://drive.google.com/example2", "a1"),
    Assignment("a3", "JavaScript ES6 Features", "Implement various ES6 features with examples",
      "2025-11-12", "https://drive.google.com/example3", "a1")
  ]

  /** The seed set is three assignments with the distinct ids a1, a2, a3. */
  lemma SeedIds()
    ensures |InitialAssignments| == 3
    ensures InitialAssignments[0].id == "a1" && InitialAssignments[1].id == "a2" && InitialAssignments[2].id == "a3"
    ensures forall i, j :: 0 <= i < j < |InitialAssignments| ==> InitialAssignments[i].id != InitialAssignments[j].id
  {
  }

  /** Every seed has a title and a deadline, so each would pass the creation guard. */
  lemma SeedsComplete()
    ensures forall a :: a in InitialAssignments ==> a.title != "" && a.deadline != ""
  {
  }

  /** Every seed was created by the instructor. */
  lemma SeedsByAdmin()
    ensures forall a :: a in InitialAssignments ==> a.createdBy == AdminUser.id && a.createdBy == "a1"
  {
  }

  /** The students have pairwise distinct ids and pairwise distinct emails. */
  lemma StudentsDistinct()
    ensures |Students| == 3
    ensures forall i, j :: 0 <= i < j < |Students| ==> Students[i].id != Students[j].id
    ensures forall i, j :: 0 <= i < j < |Students| ==> Students[i].email != Students[j].email
  {
  }

  /** No student shares the instructor's email, so checking the instructor
      first never shadows a student's login. */
  lemma AdminEmailUnique()
    ensures forall u :: u in Students ==> u.email != AdminUser.email
  {
  }
}
