/**
 * The portfolio's project list: a static table, a set of filter buttons,
 * and the component state that holds the active filter and the projects
 * shown.
 */
module Projects {
  import opened Wrappers

  datatype Project = Project(
    id: int,
    title: string,
    technologies: seq<string>,
    category: string,
    github: string,
    demo: Option<string>,
    featured: bool)

  /** The rows of the static `projects` table. */
  const WebShop := Project(1, "E-Commerce Web App", ["PHP", "MySQL", "JavaScript", "Bootstrap"], "web",
    "https://github.com/Durafshaan/ecommerce-app", Some("https://demo-ecommerce.com"), true)
  const TaskManager := Project(2, "Task Manager Android App", ["Java", "Android Studio", "SQLite", "Material Design"], "mobile",
    "https://github.com/Durafshaan/task-manager-android", None, true)
  const WeatherDashboard := Project(3, "Weather Dashboard", ["React", "API Integration", "CSS3", "Chart.js"], "web",
    "https://github.com/Durafshaan/weather-dashboard", Some("https://weather-dashboard-demo.com"), false)
  const StudentManagement := Project(4, "Student Management System", ["PHP", "MySQL", "HTML5", "CSS3"], "web",
    "https://github.com/Durafshaan/student-management", None, false)
  const FitnessTracker := Project(5, "Fitness Tracker Mobile App", ["Kotlin", "Android Studio", "Room Database", "Charts"], "mobile",
    "https://github.com/Durafshaan/fitness-tracker", None, false)
  const PortfolioSite := Project(6, "Portfolio Website", ["React", "Three.js", "Framer Motion", "Tailwind CSS"], "web",
    "https://github.com/Durafshaan/portfolio", Some("https://durafshaan.dev"), true)

  /** The static `projects` table, in display order. */
  const AllProjects: seq<Project> :=
    [WebShop, TaskManager, WeatherDashboard, StudentManagement, FitnessTracker, PortfolioSite]

  datatype FilterButton = FilterButton(id: string, caption: string)

  /** The `filters` buttons. */
  const Filters: seq<FilterButton> := [
    FilterButton("all", "All Projects"),
    FilterButton("web", "Web Apps"),
    FilterButton("mobile", "Mobile Apps"),
    FilterButton("backend", "Backend")]

  /** Array.prototype.filter with `project.category === category`. */
  function WithCategory(ps: seq<Project>, category: string): (r: seq<Project>)
    ensures |r| <= |ps|
  {
    if ps == [] then []
    else (if ps[0].category == category then [ps[0]] else []) + WithCategory(ps[1..], category)
  }

  /** The filtered list holds exactly the projects of the category. */
  lemma {:induction false} WithCategoryMembers(ps: seq<Project>, category: string)
    ensures forall p :: p in WithCategory(ps, category) <==> p in ps && p.category == category
  {
    if ps != [] {
      WithCategoryMembers(ps[1..], category);
      assert ps == [ps[0]] + ps[1..];
    }
  }

  /** What handleFilterChange shows: everything for 'all', otherwise that category. */
  function FilterProjects(filterId: string): seq<Project> {
    if filterId == "all" then AllProjects else WithCategory(AllProjects, filterId)
  }

  /** Filtering keeps the original order: it distributes over concatenation. */
  lemma {:induction false} WithCategoryAppend(a: seq<Project>, b: seq<Project>, category: string)
    ensures WithCategory(a + b, category) == WithCategory(a, category) + WithCategory(b, category)
  {
    if a == [] {
      assert a + b == b;
    } else {
      var head := if a[0].category == category then [a[0]] else [];
      assert (a + b)[0] == a[0];
      assert (a + b)[1..] == a[1..] + b;
      WithCategoryAppend(a[1..], b, category);
      calc {
        WithCategory(a + b, category);
        head + WithCategory(a[1..] + b, category);
        head + (WithCategory(a[1..], category) + WithCategory(b, category));
        (head + WithCategory(a[1..], category)) + WithCategory(b, category);
      }
    }
  }

  /** Filtering a filtered list again changes nothing. */
  lemma {:induction false} WithCategoryIdempotent(ps: seq<Project>, category: string)
    ensures WithCategory(WithCategory(ps, category), category) == WithCategory(ps, category)
  {
    if ps != [] {
      WithCategoryIdempotent(ps[1..], category);
      var head := if ps[0].category == category then [ps[0]] else [];
      WithCategoryAppend(head, WithCategory(ps[1..], category), category);
      assert WithCategory(head, category) == head by {
        if head != [] {
          assert head[1..] == [];
        }
      }
    }
  }

  /** A list whose projects all have the category survives filtering whole. */
  lemma {:induction false} WithCategoryAll(ps: seq<Project>, category: string)
    requires forall i :: 0 <= i < |ps| ==> ps[i].category == category
    ensures WithCategory(ps, category) == ps
  {
    if ps != [] {
      WithCategoryAll(ps[1..], category);
    }
  }

  /** 'all' shows the whole table in its order; any other id exactly the projects of that category. */
  lemma FilterMeaning(filterId: string)
    ensures filterId == "all" ==> FilterProjects(filterId) == AllProjects
    ensures filterId != "all" ==> forall p :: p in FilterProjects(filterId) <==> p in AllProjects && p.category == filterId
  {
    WithCategoryMembers(AllProjects, filterId);
  }

  /** Filtering one project keeps it exactly when its category matches. */
  lemma WithCategoryOne(p: Project, category: string)
    ensures WithCategory([p], category) == if p.category == category then [p] else []
  {
    assert [p][1..] == [];
  }

  /** Filtering a suffix looks at its first item, then filters the rest. */
  lemma WithCategoryStep(t: seq<Project>, i: nat, category: string)
    requires i < |t|
    ensures WithCategory(t[i..], category)
         == (if t[i].category == category then [t[i]] else []) + WithCategory(t[i + 1..], category)
  {
    assert t[i..][1..] == t[i + 1..];
  }

  /** The rows' categories: 1, 3, 4 and 6 are web, 2 and 5 mobile. */
  lemma RowCategories()
    ensures AllProjects[0].category == "web" && AllProjects[1].category == "mobile"
    ensures AllProjects[2].category == "web" && AllProjects[3].category == "web"
    ensures AllProjects[4].category == "mobile" && AllProjects[5].category == "web"
  {
  }

  /** The part of the filtered list that comes from one item. */
  function Kept(p: Project, c: string): seq<Project> {
    if p.category == c then [p] else []
  }

  /** Filtering three items, item by item. */
  lemma {:induction false} ThreeItems(t: seq<Project>, c: string)
    requires |t| == 3
    ensures WithCategory(t, c) == Kept(t[0], c) + (Kept(t[1], c) + Kept(t[2], c))
  {
    assert t[3..] == [];
    WithCategoryStep(t, 2, c);
    WithCategoryStep(t, 1, c);
    WithCategoryStep(t, 0, c);
    assert t[0..] == t;
  }

  /** Filtering six items is filtering each half. */
  lemma {:induction false} SixItems(t: seq<Project>, c: string)
    requires |t| == 6
    ensures WithCategory(t, c)
         == (Kept(t[0], c) + (Kept(t[1], c) + Kept(t[2], c))) + (Kept(t[3], c) + (Kept(t[4], c) + Kept(t[5], c)))
  {
    assert t == t[..3] + t[3..];
    WithCategoryAppend(t[..3], t[3..], c);
    ThreeItems(t[..3], c);
    ThreeItems(t[3..], c);
  }

  /** The 'web' button shows projects 1, 3, 4 and 6 in that order. */
  lemma WebResult()
    ensures FilterProjects("web") == [WebShop, WeatherDashboard, StudentManagement, PortfolioSite]
  {
    RowCategories();
    SixItems(AllProjects, "web");
  }

  /** The 'mobile' button shows projects 2 and 5 in that order. */
  lemma MobileResult()
    ensures FilterProjects("mobile") == [TaskManager, FitnessTracker]
  {
    RowCategories();
    SixItems(AllProjects, "mobile");
  }

  /** The 'backend' button matches no project, so the empty-list message is shown. */
  lemma BackendResult()
    ensures FilterProjects("backend") == []
  {
    RowCategories();
    assert "web" != "backend" && "mobile" != "backend";
    SixItems(AllProjects, "backend");
  }

  /** Every button but 'all' is a category filter, and every project falls under one of the buttons. */
  lemma FiltersCoverCategories()
    ensures forall i :: 0 <= i < |AllProjects| ==> exists j :: 1 <= j < |Filters| && Filters[j].id == AllProjects[i].category
  {
    assert Filters[1].id == "web" && Filters[2].id == "mobile";
  }

  /** The component state of the Projects section. */
  class ProjectsView {
    var activeFilter: string
    var filteredProjects: seq<Project>

    /** useState: 'all' is active but nothing is shown until the mount effect runs. */
    constructor ()
      ensures activeFilter == "all" && filteredProjects == []
    {
      activeFilter := "all";
      filteredProjects := [];
    }

    /** The mount effect: show every project. */
    method OnMount()
      modifies this
      ensures filteredProjects == AllProjects && activeFilter == old(activeFilter)
    {
      filteredProjects := AllProjects;
    }

    /** handleFilterChange: the new id becomes active and the list is recomputed from the full table. */
    method HandleFilterChange(filterId: string)
      modifies this
      ensures activeFilter == filterId
      ensures filteredProjects == FilterProjects(filterId)
      ensures filteredProjects == [] <==> filterId != "all" && forall p :: p in AllProjects ==> p.category != filterId
    {
      activeFilter := filterId;
      if filterId == "all" {
        filteredProjects := AllProjects;
      } else {
        filteredProjects := WithCategory(AllProjects, filterId);
        WithCategoryMembers(AllProjects, filterId);
        if filteredProjects != [] {
          assert filteredProjects[0] in filteredProjects;
        }
      }
    }
  }
}
