/**
  Maintenance mode: the flag the service holds and the route guard that
  sends every navigation to the maintenance page while it is set, and away
  from it while it is not.
 */
module Maintenance {

  const MaintenanceUrl: string := "/maintenance"
  const HomeUrl: string := "/"

  /** What a guard returns: let the navigation through, or a URL tree to go to instead. */
  datatype GuardResult = Allow | Redirect(url: string)

  /** `maintenanceGuard` for a navigation to `url`. */
  function MaintenanceGuard(maintenanceOn: bool, url: string): (r: GuardResult)
    ensures maintenanceOn ==> (r == Allow <==> url == MaintenanceUrl)
    ensures maintenanceOn && url != MaintenanceUrl ==> r == Redirect(MaintenanceUrl)
    ensures !maintenanceOn ==> (r == Allow <==> url != MaintenanceUrl)
    ensures !maintenanceOn && url == MaintenanceUrl ==> r == Redirect(HomeUrl)
  {
    if maintenanceOn then
      if url == MaintenanceUrl then Allow else Redirect(MaintenanceUrl)
    else if url == MaintenanceUrl then Redirect(HomeUrl)
    else Allow
  }

  /** The guard never redirects to the URL asked for, and the URL it redirects to is let through. */
  lemma RedirectSettles(maintenanceOn: bool, url: string)
    ensures MaintenanceGuard(maintenanceOn, url).Redirect? ==>
      MaintenanceGuard(maintenanceOn, url).url != url &&
      MaintenanceGuard(maintenanceOn, MaintenanceGuard(maintenanceOn, url).url) == Allow
  {
    assert MaintenanceUrl != HomeUrl by { assert |MaintenanceUrl| != |HomeUrl|; }
  }

  /** `MaintenanceService`: its private flag. */
  datatype MaintenanceService = MaintenanceService(flag: bool)

  /** `isMaintenanceMode`. */
  function IsMaintenanceMode(m: MaintenanceService): (r: bool)
    ensures r <==> m.flag
  {
    m.flag
  }

  function Enable(m: MaintenanceService): (r: MaintenanceService)
    ensures IsMaintenanceMode(r)
  {
    MaintenanceService(true)
  }

  function Disable(m: MaintenanceService): (r: MaintenanceService)
    ensures !IsMaintenanceMode(r)
  {
    MaintenanceService(false)
  }

  function Toggle(m: MaintenanceService): (r: MaintenanceService)
    ensures IsMaintenanceMode(r) == !IsMaintenanceMode(m)
  {
    MaintenanceService(!m.flag)
  }

  /** Toggling twice restores the flag; enabling or disabling does not depend on the previous state. */
  lemma ServiceLaws(m: MaintenanceService, n: MaintenanceService)
    ensures Toggle(Toggle(m)) == m
    ensures Enable(m) == Enable(n) && Disable(m) == Disable(n)
    ensures Toggle(Enable(m)) == Disable(m) && Toggle(Disable(m)) == Enable(m)
  {
  }

  /** While the service is enabled the guard lets through only the maintenance page. */
  lemma EnabledGuardsEverything(m: MaintenanceService, url: string)
    ensures MaintenanceGuard(IsMaintenanceMode(Enable(m)), url) == Allow <==> url == MaintenanceUrl
    ensures MaintenanceGuard(IsMaintenanceMode(Disable(m)), url) == Allow <==> url != MaintenanceUrl
  {
  }
}
