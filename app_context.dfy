/** The page state machine of src/contexts/AppContext.tsx: the current page
    and the URL fragment it is kept in step with. */
module AppContext {
  import opened Wrappers

  datatype Page = Home | CustomerDashboard | BarberDashboard | AdminDashboard

  function PageName(p: Page): string {
    match p
    case Home => "home"
    case CustomerDashboard => "customer-dashboard"
    case BarberDashboard => "barber-dashboard"
    case AdminDashboard => "admin-dashboard"
  }

  /** The page a fragment names, if it names one. */
  function ParsePage(fragment: string): (r: Option<Page>)
    ensures r.Some? ==> PageName(r.value) == fragment
    ensures r.None? ==> forall p :: PageName(p) != fragment
  {
    if fragment == "home" then Some(Home)
    else if fragment == "customer-dashboard" then Some(CustomerDashboard)
    else if fragment == "barber-dashboard" then Some(BarberDashboard)
    else if fragment == "admin-dashboard" then Some(AdminDashboard)
    else None
  }

  /** The fragment navigateTo writes: empty for home (the URL ends in '#'). */
  function FragmentFor(p: Page): (f: string)
    ensures p == Home <==> f == ""
  {
    if p == Home then "" else PageName(p)
  }

  /** Every page but home reads back from the fragment written for it; the
      home fragment names no page, so the `|| 'home'` default never fires. */
  lemma FragmentRoundTrip(p: Page)
    ensures p != Home ==> ParsePage(FragmentFor(p)) == Some(p)
    ensures ParsePage(FragmentFor(Home)) == None
  {
    if p != Home {
      assert PageName(p) != "";
    }
  }

  class AppState {
    var currentPage: Page
    var fragment: string

    /** Mounting starts at home and then reads the fragment the app was
        opened with. */
    constructor (initialFragment: string)
      ensures fragment == initialFragment
      ensures currentPage == ParsePage(initialFragment).GetOr(Home)
    {
      currentPage := Home;
      fragment := initialFragment;
      new;
      HandleHashChange();
    }

    /** navigateTo: switch page and write its fragment (pushState raises no
        hashchange). */
    method NavigateTo(p: Page)
      modifies this
      ensures currentPage == p && fragment == FragmentFor(p)
    {
      currentPage := p;
      fragment := FragmentFor(p);
    }

    /** handleHashChange: a fragment naming a page switches to it; any other
        fragment leaves the page as it is. */
    method HandleHashChange()
      modifies this`currentPage
      ensures currentPage == ParsePage(fragment).GetOr(old(currentPage))
    {
      var hash := fragment;
      var page := ParsePage(hash);
      if page.Some? {
        currentPage := page.value;
      }
    }

    /** The user edits the URL: the fragment changes and the handler runs. */
    method HashChanged(newFragment: string)
      modifies this
      ensures fragment == newFragment
      ensures currentPage == ParsePage(newFragment).GetOr(old(currentPage))
    {
      fragment := newFragment;
      HandleHashChange();
    }
  }

  /** Navigating and then re-reading the fragment keeps the page. */
  method NavigateThenReload(app: AppState, p: Page)
    modifies app
    ensures app.currentPage == p
  {
    app.NavigateTo(p);
    FragmentRoundTrip(p);
    app.HandleHashChange();
  }
}
