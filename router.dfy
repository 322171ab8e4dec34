/**
 * The navigation guard of the frontend (`frontend/src/router/index.js`): the
 * route table's metadata, the `/` and `/home` redirects, the auth store the
 * guard reads and changes (`frontend/src/stores/auth.js`), and the decision
 * `beforeEach` takes for each navigation.
 */
module Router {
  import opened Common

  /** The part of the signed-in user the guard reads. */
  datatype User = User(rol: Option<string>, preferencias: bool)

  /** The store's session: the user and the token. */
  datatype Session = Session(user: Option<User>, token: string)
  {
    /** `isAuth`: a token and a user. */
    predicate IsAuth()
    {
      token != "" && user.Some?
    }
  }

  /** `!auth.user?.rol`: no user, no role, or an empty one. */
  predicate NoRole(user: Option<User>)
  {
    user.None? || user.value.rol.None? || user.value.rol.value == ""
  }

  /** `guestOnly`, `requiresAuth`, `requiresAdmin` and `allowedRoles` of a route's `meta`. */
  datatype Meta = Meta(guestOnly: bool, requiresAuth: bool, requiresAdmin: bool, allowedRoles: Option<seq<string>>)

  /** The records of the table that have a component. */
  datatype Page =
    | Login | Register | OnboardingType | OnboardingPreferences
    | Dashboard | DashboardProfesor | DashboardAdmin
    | Asignaturas | Inscripcion
    | AdminAsignaturas | AdminCarreras | AdminHorarios | AdminInscripciones | AdminUsuarios
    | ProfesorAsignaturas | Configuracion

  /** The record's path; it names that record again. */
  function PathOf(p: Page): (path: string)
    ensures PageAt(path) == At(p)
    ensures |path| > 1 && path[0] == '/' && path[|path| - 1] != '/' && path != "/home"
  {
    match p
    case Login => "/login"
    case Register => "/register"
    case OnboardingType => "/onboarding/type"
    case OnboardingPreferences => "/onboarding/preferences"
    case Dashboard => "/dashboard"
    case DashboardProfesor => "/dashboard/profesor"
    case DashboardAdmin => "/dashboard/admin"
    case Asignaturas => "/asignaturas"
    case Inscripcion => "/inscripcion"
    case AdminAsignaturas => "/admin/asignaturas"
    case AdminCarreras => "/admin/carreras"
    case AdminHorarios => "/admin/horarios"
    case AdminInscripciones => "/admin/inscripciones"
    case AdminUsuarios => "/admin/usuarios"
    case ProfesorAsignaturas => "/profesor/asignaturas"
    case Configuracion => "/configuracion"
  }

  const Guest: Meta := Meta(true, false, false, None)
  const Authenticated: Meta := Meta(false, true, false, None)

  function Only(rol: string): Meta
  {
    Meta(false, true, false, Some([rol]))
  }

  /** The `meta` of each record. */
  function MetaOf(p: Page): Meta
  {
    match p
    case Login | Register => Guest
    case OnboardingType | OnboardingPreferences | Configuracion => Authenticated
    case Dashboard | Asignaturas | Inscripcion => Only("ESTUDIANTE")
    case DashboardProfesor | ProfesorAsignaturas => Only("PROFESOR")
    case DashboardAdmin | AdminAsignaturas | AdminCarreras | AdminHorarios | AdminInscripciones | AdminUsuarios =>
      Only("ADMIN")
  }

  /** What the guard returns: nothing (the navigation goes on) or a redirect. */
  datatype Nav = Proceed | Redirect(to: Page, replace: bool)

  /** Each role's dashboard; any other role goes to the choice of user type. */
  function RoleHome(rol: Option<string>): (p: Page)
    ensures rol == Some("ESTUDIANTE") <==> p == Dashboard
    ensures rol == Some("PROFESOR") <==> p == DashboardProfesor
    ensures rol == Some("ADMIN") <==> p == DashboardAdmin
    ensures p in {Dashboard, DashboardProfesor, DashboardAdmin, OnboardingType}
  {
    match rol
    case Some("ESTUDIANTE") => Dashboard
    case Some("PROFESOR") => DashboardProfesor
    case Some("ADMIN") => DashboardAdmin
    case _ => OnboardingType
  }

  /** Where a navigation lands after the records' redirects. */
  datatype Target = At(page: Page) | Unmatched

  /**
   * The text a path is matched by. `createRouter` sets neither `sensitive` nor
   * `strict`, so Vue Router ignores the letter case of the path and accepts one
   * trailing slash after any path but `/`.
   */
  function MatchKey(path: string): (k: string)
    ensures |path| > 1 && path[|path| - 1] == '/' ==> |k| == |path| - 1
    ensures !(|path| > 1 && path[|path| - 1] == '/') ==> |k| == |path|
    ensures forall i :: 0 <= i < |k| ==> k[i] == ToLowerChar(path[i])
  {
    var lower := ToLower(path);
    if |lower| > 1 && lower[|lower| - 1] == '/' then lower[..|lower| - 1] else lower
  }

  /**
   * `{ path: '/', redirect: '/login' }` and the `/home` redirect (no user to
   * the login, otherwise the role's dashboard); the other paths name their
   * record, or none. Every path is matched through its `MatchKey`.
   */
  function Resolve(path: string, user: Option<User>): (t: Target)
    ensures MatchKey(path) == "/home" ==> t == At(if user.None? then Login else RoleHome(user.value.rol))
    ensures MatchKey(path) == "/" ==> t == At(Login)
    ensures MatchKey(path) != "/" && MatchKey(path) != "/home" ==> t == PageAt(MatchKey(path))
  {
    var key := MatchKey(path);
    if key == "/" then At(Login)
    else if key == "/home" then At(if user.None? then Login else RoleHome(user.value.rol))
    else PageAt(key)
  }

  /** Letter case does not change where a path leads. */
  lemma ResolveIgnoresCase(path: string, user: Option<User>)
    ensures Resolve(ToLower(path), user) == Resolve(path, user)
  {
    assert ToLower(ToLower(path)) == ToLower(path) by {
      assert forall i :: 0 <= i < |path| ==> ToLower(ToLower(path))[i] == ToLowerChar(ToLowerChar(path[i]));
    }
    assert MatchKey(ToLower(path)) == MatchKey(path);
  }

  /** One trailing slash after a path that does not end in one does not change where it leads. */
  lemma ResolveTrailingSlash(path: string, user: Option<User>)
    requires path != "" && path[|path| - 1] != '/'
    ensures Resolve(path + "/", user) == Resolve(path, user)
  {
    assert MatchKey(path + "/") == MatchKey(path) by {
      var k, k' := MatchKey(path + "/"), MatchKey(path);
      assert |k| == |k'| == |path|;
      forall i | 0 <= i < |k|
        ensures k[i] == k'[i]
      {
        assert (path + "/")[i] == path[i];
      }
    }
  }

  /**
   * Any spelling of a record's path that differs in letter case or by one
   * trailing slash names that record.
   */
  lemma PathVariantsNameRecord(p: Page, path: string, user: Option<User>)
    requires ToLower(path) == PathOf(p) || ToLower(path) == PathOf(p) + "/"
    ensures Resolve(path, user) == At(p)
  {
    var key := PathOf(p);
    assert MatchKey(path) == key by {
      var k := MatchKey(path);
      if ToLower(path) == key + "/" {
        assert path[|path| - 1] == '/' by {
          assert ToLowerChar(path[|path| - 1]) == (key + "/")[|path| - 1] == '/';
        }
        assert |k| == |key|;
        forall i | 0 <= i < |k|
          ensures k[i] == key[i]
        {
          assert ToLowerChar(path[i]) == (key + "/")[i];
        }
      } else {
        assert path[|path| - 1] != '/' by {
          assert ToLowerChar(path[|path| - 1]) == key[|key| - 1];
        }
        assert |k| == |key|;
        forall i | 0 <= i < |k|
          ensures k[i] == key[i]
        {
          assert ToLowerChar(path[i]) == key[i];
        }
      }
    }
    assert key != "/";
  }

  /**
   * A visitor without a session who types a guarded record's path in other
   * capitals or with a trailing slash is still sent to `/login`.
   */
  lemma VariantOfGuardedPathNeedsSession(s: Session, p: Page, path: string)
    requires ToLower(path) == PathOf(p) || ToLower(path) == PathOf(p) + "/"
    requires MetaOf(p).requiresAuth && !s.IsAuth()
    ensures Resolve(path, s.user) == At(p) && Guard(s, p) == Redirect(Login, false)
  {
    PathVariantsNameRecord(p, path, s.user);
  }

  /** The record a path names, if any. */
  function PageAt(path: string): Target
  {
    match path
    case "/login" => At(Login)
    case "/register" => At(Register)
    case "/onboarding/type" => At(OnboardingType)
    case "/onboarding/preferences" => At(OnboardingPreferences)
    case "/dashboard" => At(Dashboard)
    case "/dashboard/profesor" => At(DashboardProfesor)
    case "/dashboard/admin" => At(DashboardAdmin)
    case "/asignaturas" => At(Asignaturas)
    case "/inscripcion" => At(Inscripcion)
    case "/admin/asignaturas" => At(AdminAsignaturas)
    case "/admin/carreras" => At(AdminCarreras)
    case "/admin/horarios" => At(AdminHorarios)
    case "/admin/inscripciones" => At(AdminInscripciones)
    case "/admin/usuarios" => At(AdminUsuarios)
    case "/profesor/asignaturas" => At(ProfesorAsignaturas)
    case "/configuracion" => At(Configuracion)
    case _ => Unmatched
  }

  /** Where a signed-in user is sent from a guest page. */
  function GuestHome(user: User, to: Page): Page
  {
    if user.rol.None? || user.rol.value == "" then OnboardingType
    else if user.rol == Some("ESTUDIANTE") then
      (if !user.preferencias && to != OnboardingPreferences then OnboardingPreferences else Dashboard)
    else RoleHome(user.rol)
  }

  /** The `requiresAdmin` redirect of a user who is not an administrator (there is no ADMIN case). */
  function NonAdminHome(rol: Option<string>): Page
  {
    match rol
    case Some("ESTUDIANTE") => Dashboard
    case Some("PROFESOR") => DashboardProfesor
    case _ => OnboardingType
  }

  /** `to.meta.allowedRoles.includes(auth.user.rol)`. */
  predicate RoleAllowed(s: Session, m: Meta)
    requires m.allowedRoles.Some? && s.user.Some?
  {
    s.user.value.rol.Some? && s.user.value.rol.value in m.allowedRoles.value
  }

  /**
   * The decision of `beforeEach` once the session is settled: the checks
   * `requiresAuth`, `guestOnly`, `requiresAdmin`, `allowedRoles`, in this
   * order, each redirecting on failure.
   */
  function Decide(s: Session, m: Meta, to: Page): (r: Nav)
    ensures m.requiresAuth && !s.IsAuth() ==> r == Redirect(Login, false)
    ensures !(m.requiresAuth && !s.IsAuth()) && m.guestOnly && s.IsAuth() ==>
              r == Redirect(GuestHome(s.user.value, to), false)
    ensures !m.guestOnly && !m.requiresAdmin && m.allowedRoles.Some? && s.IsAuth() && !RoleAllowed(s, m) ==>
              r == Redirect(RoleHome(s.user.value.rol), false)
    ensures r.Proceed? <==>
      (m.requiresAuth ==> s.IsAuth()) && !(m.guestOnly && s.IsAuth()) &&
      (m.requiresAdmin ==> s.user.Some? && s.user.value.rol == Some("ADMIN")) &&
      (m.allowedRoles.Some? ==> s.user.Some? && RoleAllowed(s, m))
    ensures r.Redirect? ==> !r.replace
  {
    if m.requiresAuth && !s.IsAuth() then Redirect(Login, false)
    else if m.guestOnly && s.IsAuth() then Redirect(GuestHome(s.user.value, to), false)
    else if m.requiresAdmin && s.user.None? then Redirect(Login, false)
    else if m.requiresAdmin && s.user.value.rol != Some("ADMIN") then Redirect(NonAdminHome(s.user.value.rol), false)
    else if m.allowedRoles.Some? && s.user.None? then Redirect(Login, false)
    else if m.allowedRoles.Some? && !RoleAllowed(s, m) then Redirect(RoleHome(s.user.value.rol), false)
    else Proceed
  }

  /** The decision for a record of the table. */
  function Guard(s: Session, to: Page): Nav
  {
    Decide(s, MetaOf(to), to)
  }

  /** A signed-in user on a guest page (`/login`, `/register`) is sent home according to the role. */
  lemma GuestRedirects(s: Session, to: Page)
    requires MetaOf(to).guestOnly && s.IsAuth()
    ensures NoRole(s.user) ==> Guard(s, to) == Redirect(OnboardingType, false)
    ensures s.user.value.rol == Some("ESTUDIANTE") && !s.user.value.preferencias ==>
              Guard(s, to) == Redirect(OnboardingPreferences, false)
    ensures s.user.value.rol == Some("ESTUDIANTE") && s.user.value.preferencias ==>
              Guard(s, to) == Redirect(Dashboard, false)
    ensures s.user.value.rol == Some("PROFESOR") ==> Guard(s, to) == Redirect(DashboardProfesor, false)
    ensures s.user.value.rol == Some("ADMIN") ==> Guard(s, to) == Redirect(DashboardAdmin, false)
  {
    assert to == Login || to == Register;
  }

  /** The session after the guard's call to `me`: a user, or no token. */
  predicate Settled(s: Session)
  {
    s.user.Some? || s.token == ""
  }

  /** Every page a redirect of the table's guard can lead to lets its visitor through. */
  lemma TargetsLetThrough(s: Session, to: Page)
    requires Settled(s) && Guard(s, to).Redirect?
    ensures Guard(s, Guard(s, to).to).Proceed?
  {
    var p := Guard(s, to).to;
    if p == Login {
      assert !s.IsAuth();
    } else if p == Dashboard {
      assert s.user.value.rol == Some("ESTUDIANTE");
    } else if p == DashboardProfesor {
      assert s.user.value.rol == Some("PROFESOR");
    } else if p == DashboardAdmin {
      assert s.user.value.rol == Some("ADMIN");
    } else {
      assert p == OnboardingType || p == OnboardingPreferences;
      assert s.IsAuth();
    }
  }

  /**
   * No redirect loop: from every record of the table a settled session is
   * either let through or redirected once, to a record that lets it through.
   */
  lemma NoRedirectLoop(s: Session, to: Page)
    requires Settled(s)
    ensures Guard(s, to).Proceed? || Guard(s, Guard(s, to).to).Proceed?
  {
    if Guard(s, to).Redirect? {
      TargetsLetThrough(s, to);
    }
  }

  /** `/home` sends every signed-in user to a page the guard lets them see. */
  lemma HomeLandsOnAllowedPage(s: Session)
    requires s.IsAuth()
    ensures Resolve("/home", s.user).At? && Guard(s, Resolve("/home", s.user).page).Proceed?
  {
    var p := RoleHome(s.user.value.rol);
    assert Resolve("/home", s.user) == At(p);
  }

  // ---------------------------------------------------------------------------
  // The auth store and the guard
  // ---------------------------------------------------------------------------

  /** The store's `user` and `token` (its persistence in `localStorage` is not modelled). */
  class AuthStore
  {
    var user: Option<User>
    var token: string

    constructor(user: Option<User>, token: string)
      ensures this.user == user && this.token == token
    {
      this.user := user;
      this.token := token;
    }

    function Current(): Session
      reads this
    {
      Session(user, token)
    }

    /** `logout`: the session is cleared. */
    method Logout()
      modifies this
      ensures user.None? && token == ""
    {
      user := None;
      token := "";
    }

    /**
     * `me`: with a token, the server's answer (`reply`) replaces the user; a
     * refused token (`None`) clears the session. Without a token nothing
     * changes.
     */
    method Me(reply: Option<User>)
      modifies this
      ensures old(token) == "" ==> user == old(user) && token == old(token)
      ensures old(token) != "" && reply.Some? ==> user == reply && token == old(token)
      ensures old(token) != "" && reply.None? ==> user.None? && token == ""
      ensures Settled(Current()) || old(token) == ""
    {
      if token == "" {
        return;
      }
      match reply
      case Some(u) =>
        user := Some(u);
      case None =>
        user := None;
        token := "";
    }
  }

  /** `to.query.resetSession === '1'`. */
  predicate Reset(resetSession: Option<string>)
  {
    resetSession == Some("1")
  }

  /**
   * `beforeEach`: a `resetSession=1` query logs out and replaces the
   * navigation by the login; otherwise the session is completed with `me`
   * when there is a token but no user (`reply` is the server's answer), and
   * the decision follows the settled session.
   */
  method BeforeEach(auth: AuthStore, to: Target, resetSession: Option<string>, reply: Option<User>) returns (nav: Nav)
    modifies auth
    ensures Reset(resetSession) ==> nav == Redirect(Login, true) && auth.Current() == Session(None, "")
    ensures !Reset(resetSession) && (old(auth.user).Some? || old(auth.token) == "") ==>
              auth.Current() == old(auth.Current())
    ensures !Reset(resetSession) && old(auth.user).None? && old(auth.token) != "" ==>
              auth.Current() == (if reply.Some? then Session(reply, old(auth.token)) else Session(None, ""))
    ensures !Reset(resetSession) ==> Settled(auth.Current())
    ensures !Reset(resetSession) && to.At? ==> nav == Guard(auth.Current(), to.page)
    ensures !Reset(resetSession) && to.Unmatched? ==> nav == Proceed
  {
    if Reset(resetSession) {
      auth.Logout();
      return Redirect(Login, true);
    }
    if auth.user.None? && auth.token != "" {
      auth.Me(reply);
    }
    nav := if to.At? then Guard(auth.Current(), to.page) else Proceed;
  }
}
